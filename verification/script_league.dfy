/** The arithmetic of the stand-alone league script (FantasyLeague.py): weekly
    ranks with ties sharing the smallest rank, win probabilities read off the
    ranks, the win-count table built by enumerating scenarios, expected wins,
    and the order of the custom seeding. The data frames are sequences here. */
module LeagueScript {
  import opened RealSeq
  import opened WinDistribution
  import opened KeySort
  import RankProbability
  import League

  // ---------------------------------------------------------------------------
  // Ranks with ties
  // ---------------------------------------------------------------------------

  /** A scoring row: a roster's points in a week. */
  datatype Score = Score(rosterId: int, week: int, points: real)

  /** Number of elements whose key is strictly above x. */
  function Above<T>(s: seq<T>, key: T -> real, x: real): (c: nat)
    ensures c <= |s|
  {
    if |s| == 0 then 0 else (if key(s[0]) > x then 1 else 0) + Above(s[1..], key, x)
  }

  /** Raising the threshold never counts more elements. */
  lemma {:induction false} AboveAntitone<T>(s: seq<T>, key: T -> real, x: real, y: real)
    requires y <= x
    ensures Above(s, key, x) <= Above(s, key, y)
  {
    if |s| > 0 {
      AboveAntitone(s[1..], key, x, y);
    }
  }

  /** An element with key x is not above x, so fewer than all elements are. */
  lemma {:induction false} AboveBelowLength<T>(s: seq<T>, key: T -> real, i: nat)
    requires i < |s|
    ensures Above(s, key, key(s[i])) < |s|
  {
    if i > 0 {
      assert s[1..][i - 1] == s[i];
      AboveBelowLength(s[1..], key, i - 1);
    }
  }

  /** An element with key x counts towards every threshold below x. */
  lemma {:induction false} AboveStrict<T>(s: seq<T>, key: T -> real, i: nat, y: real)
    requires i < |s| && y < key(s[i])
    ensures Above(s, key, key(s[i])) < Above(s, key, y)
  {
    if i == 0 {
      AboveAntitone(s[1..], key, key(s[0]), y);
    } else {
      assert s[1..][i - 1] == s[i];
      AboveStrict(s[1..], key, i - 1, y);
    }
  }

  function ScorePoints(r: Score): real
  {
    r.points
  }

  /** The rows of week w, in row order. */
  function WeekRows(scores: seq<Score>, w: int): (r: seq<Score>)
    ensures forall x :: x in r <==> x in scores && x.week == w
  {
    if |scores| == 0 then []
    else
      assert scores == [scores[0]] + scores[1..];
      (if scores[0].week == w then [scores[0]] else []) + WeekRows(scores[1..], w)
  }

  /** `groupby('week')['points'].rank(ascending=False, method='min')`: a row's
      rank is one plus the number of rows of its week that scored more. */
  function MinRanks(scores: seq<Score>): (r: seq<int>)
    ensures |r| == |scores|
    ensures forall i :: 0 <= i < |scores| ==> r[i] == 1 + Above(WeekRows(scores, scores[i].week), ScorePoints, scores[i].points)
  {
    seq(|scores|, i requires 0 <= i < |scores| => 1 + Above(WeekRows(scores, scores[i].week), ScorePoints, scores[i].points))
  }

  /** Within a week the ranks lie in 1..(rows of the week), tied points share
      their rank, and more points give a strictly smaller rank. */
  lemma {:induction false} MinRanksOrder(scores: seq<Score>, i: nat, j: nat)
    requires i < |scores| && j < |scores| && scores[i].week == scores[j].week
    ensures 1 <= MinRanks(scores)[i] <= |WeekRows(scores, scores[i].week)|
    ensures scores[i].points == scores[j].points ==> MinRanks(scores)[i] == MinRanks(scores)[j]
    ensures scores[i].points > scores[j].points ==> MinRanks(scores)[i] < MinRanks(scores)[j]
  {
    var g := WeekRows(scores, scores[i].week);
    assert scores[i] in g;
    var k :| 0 <= k < |g| && g[k] == scores[i];
    AboveBelowLength(g, ScorePoints, k);
    if scores[i].points > scores[j].points {
      AboveStrict(g, ScorePoints, k, scores[j].points);
    }
  }

  /** The best score of a week has rank 1. */
  lemma {:induction false} TopScoreRanksFirst(scores: seq<Score>, i: nat)
    requires i < |scores|
    requires forall j :: 0 <= j < |scores| && scores[j].week == scores[i].week ==> scores[j].points <= scores[i].points
    ensures MinRanks(scores)[i] == 1
  {
    var g := WeekRows(scores, scores[i].week);
    forall k | 0 <= k < |g| ensures g[k].points <= scores[i].points {
      assert g[k] in scores;
    }
    NoneAbove(g, ScorePoints, scores[i].points);
  }

  lemma {:induction false} NoneAbove<T>(s: seq<T>, key: T -> real, x: real)
    requires forall k :: 0 <= k < |s| ==> key(s[k]) <= x
    ensures Above(s, key, x) == 0
  {
    if |s| > 0 {
      assert forall k :: 1 <= k < |s| ==> s[1..][k - 1] == s[k];
      NoneAbove(s[1..], key, x);
    }
  }

  /** Reordering the elements does not change how many lie above x. */
  lemma {:induction false} AbovePermutation<T>(a: seq<T>, b: seq<T>, key: T -> real, x: real)
    requires multiset(a) == multiset(b)
    ensures Above(a, key, x) == Above(b, key, x)
  {
    if |a| == 0 {
      assert |multiset(b)| == 0;
    } else {
      assert a[0] in multiset(b);
      var i :| 0 <= i < |b| && b[i] == a[0];
      AboveRemoveAt(b, key, x, i);
      assert a == [a[0]] + a[1..];
      assert multiset(a[1..]) == multiset(a) - multiset{a[0]};
      AbovePermutation(a[1..], b[..i] + b[i + 1..], key, x);
    }
  }

  lemma {:induction false} AboveAppend<T>(a: seq<T>, b: seq<T>, key: T -> real, x: real)
    ensures Above(a + b, key, x) == Above(a, key, x) + Above(b, key, x)
  {
    if |a| == 0 {
      assert a + b == b;
    } else {
      assert (a + b)[1..] == a[1..] + b;
      AboveAppend(a[1..], b, key, x);
    }
  }

  lemma {:induction false} AboveRemoveAt<T>(b: seq<T>, key: T -> real, x: real, i: nat)
    requires i < |b|
    ensures multiset(b[..i] + b[i + 1..]) == multiset(b) - multiset{b[i]}
    ensures Above(b, key, x) == Above(b[..i] + b[i + 1..], key, x) + (if key(b[i]) > x then 1 else 0)
  {
    assert b == b[..i] + ([b[i]] + b[i + 1..]);
    AboveAppend(b[..i], [b[i]] + b[i + 1..], key, x);
    assert ([b[i]] + b[i + 1..])[1..] == b[i + 1..];
    AboveAppend(b[..i], b[i + 1..], key, x);
  }

  function PerfPoints(p: League.Performance): real
  {
    p.points
  }

  /** Along a list sorted by points, highest first, only entries before
      position i can score more than entry i. */
  lemma {:induction false} AboveInSortedPrefix(r: seq<League.Ranked>, i: nat)
    requires i < |r|
    requires forall a, b :: 0 <= a < b < |r| ==> r[a].perf.points >= r[b].perf.points
    ensures Above(League.Unranked(r), PerfPoints, r[i].perf.points) <= i
    ensures (forall a :: 0 <= a < i ==> r[a].perf.points != r[i].perf.points) ==>
              Above(League.Unranked(r), PerfPoints, r[i].perf.points) == i
  {
    var s := League.Unranked(r);
    var x := r[i].perf.points;
    assert s == s[..i] + s[i..];
    AboveAppend(s[..i], s[i..], PerfPoints, x);
    NoneAbove(s[i..], PerfPoints, x) by {
      forall k | 0 <= k < |s[i..]| ensures PerfPoints(s[i..][k]) <= x {
        assert s[i..][k] == r[i + k].perf;
      }
    }
    if forall a :: 0 <= a < i ==> r[a].perf.points != r[i].perf.points {
      AllAbove(s[..i], PerfPoints, x) by {
        forall k | 0 <= k < i ensures PerfPoints(s[..i][k]) > x {
          assert s[..i][k] == r[k].perf;
        }
      }
    }
  }

  lemma {:induction false} AllAbove<T>(s: seq<T>, key: T -> real, x: real)
    requires forall k :: 0 <= k < |s| ==> key(s[k]) > x
    ensures Above(s, key, x) == |s|
  {
    if |s| > 0 {
      assert forall k :: 1 <= k < |s| ==> s[1..][k - 1] == s[k];
      AllAbove(s[1..], key, x);
    }
  }

  /** The script's tie-sharing rank of a performance never exceeds the rank
      the league object gives it in the same week, and the two agree when no
      other performance of the week has the same points. */
  lemma {:induction false} MinRankAtMostRank(perfs: seq<League.Performance>, i: nat)
    requires i < |perfs|
    ensures 1 + Above(perfs, PerfPoints, League.RankWeek(perfs)[i].perf.points) <= League.RankWeek(perfs)[i].rank
    ensures (forall a :: 0 <= a < |perfs| && a != i ==> League.RankWeek(perfs)[a].perf.points != League.RankWeek(perfs)[i].perf.points) ==>
              1 + Above(perfs, PerfPoints, League.RankWeek(perfs)[i].perf.points) == League.RankWeek(perfs)[i].rank
  {
    var r := League.RankWeek(perfs);
    AbovePermutation(perfs, League.Unranked(r), PerfPoints, r[i].perf.points);
    AboveInSortedPrefix(r, i);
  }

  // ---------------------------------------------------------------------------
  // Win probabilities and the win-count table
  // ---------------------------------------------------------------------------

  /** Each row's win probability (n - rank) / (n - 1), n the number of teams. */
  function WinProbs(scores: seq<Score>, n: nat): (p: seq<real>)
    requires n >= 2
    ensures |p| == |scores|
    ensures forall i :: 0 <= i < |scores| ==> p[i] == RankProbability.WinProb(n, MinRanks(scores)[i])
  {
    var ranks := MinRanks(scores);
    seq(|scores|, i requires 0 <= i < |scores| => RankProbability.WinProb(n, ranks[i]))
  }

  /** With no week holding more rows than there are teams, every win
      probability lies in [0, 1]; the best score of a week gets 1, tied
      scores get equal probabilities and more points a strictly larger one. */
  lemma {:induction false} WinProbsOrder(scores: seq<Score>, n: nat, i: nat, j: nat)
    requires n >= 2 && i < |scores| && j < |scores| && scores[i].week == scores[j].week
    requires |WeekRows(scores, scores[i].week)| <= n
    ensures 0.0 <= WinProbs(scores, n)[i] <= 1.0
    ensures scores[i].points == scores[j].points ==> WinProbs(scores, n)[i] == WinProbs(scores, n)[j]
    ensures scores[i].points > scores[j].points ==> WinProbs(scores, n)[i] > WinProbs(scores, n)[j]
  {
    MinRanksOrder(scores, i, j);
    if scores[i].points > scores[j].points {
      RankProbability.WinProbDecreasing(n, MinRanks(scores)[i], MinRanks(scores)[j]);
    }
  }

  /** The loss factor the script multiplies in for a week a scenario does not
      win, one minus the row's win probability, is the number of that week's
      rows that outscored the row, out of the n - 1 other teams. */
  lemma {:induction false} RowLossProb(scores: seq<Score>, n: nat, i: nat)
    requires n >= 2 && i < |scores|
    ensures 1.0 - WinProbs(scores, n)[i]
            == (Above(WeekRows(scores, scores[i].week), ScorePoints, scores[i].points) as real) / ((n - 1) as real)
  {
    RankProbability.LossProb(n, MinRanks(scores)[i]);
  }

  /** Row i of the scores belongs to roster id and carries probability q. */
  ghost predicate RowOf(scores: seq<Score>, probs: seq<real>, id: int, q: real)
    requires |probs| == |scores|
  {
    exists i :: 0 <= i < |scores| && scores[i].rosterId == id && probs[i] == q
  }

  /** The positions of one roster's rows, in row order. */
  function RosterRows(scores: seq<Score>, id: int): (r: seq<nat>)
    ensures forall k :: 0 <= k < |r| ==> r[k] < |scores|
  {
    if |scores| == 0 then []
    else
      var rest := RosterRows(scores[1..], id);
      (if scores[0].rosterId == id then [0] else []) + Shift(rest)
  }

  /** Every position one further on. */
  function Shift(s: seq<nat>): (r: seq<nat>)
    ensures |r| == |s| && forall k :: 0 <= k < |s| ==> r[k] == s[k] + 1
  {
    seq(|s|, k requires 0 <= k < |s| => s[k] + 1)
  }

  /** The selected positions are exactly the roster's rows: each holds a row
      of the roster, they strictly increase (so each row is taken once, in row
      order), and no row of the roster is missed. */
  lemma {:induction false} RosterRowsExact(scores: seq<Score>, id: int)
    ensures forall k :: 0 <= k < |RosterRows(scores, id)| ==> scores[RosterRows(scores, id)[k]].rosterId == id
    ensures forall a, b :: 0 <= a < b < |RosterRows(scores, id)| ==> RosterRows(scores, id)[a] < RosterRows(scores, id)[b]
    ensures forall i :: 0 <= i < |scores| && scores[i].rosterId == id ==> i in RosterRows(scores, id)
  {
    if |scores| > 0 {
      var rest := RosterRows(scores[1..], id);
      var head: seq<nat> := if scores[0].rosterId == id then [0] else [];
      RosterRowsExact(scores[1..], id);
      assert RosterRows(scores, id) == head + Shift(rest);
      ShiftedRowsOwned(scores, id, rest, head);
      ShiftedRowsIncrease(rest, head);
      ShiftedRowsComplete(scores, id, rest, head);
    }
  }

  lemma ShiftedRowsOwned(scores: seq<Score>, id: int, rest: seq<nat>, head: seq<nat>)
    requires |scores| > 0
    requires forall k :: 0 <= k < |rest| ==> rest[k] < |scores| - 1 && scores[1..][rest[k]].rosterId == id
    requires head == if scores[0].rosterId == id then [0] else []
    ensures forall k :: 0 <= k < |head + Shift(rest)| ==> (head + Shift(rest))[k] < |scores| && scores[(head + Shift(rest))[k]].rosterId == id
  {
    var r := head + Shift(rest);
    forall k | 0 <= k < |r| ensures r[k] < |scores| && scores[r[k]].rosterId == id {
      if k >= |head| {
        assert r[k] == rest[k - |head|] + 1;
        assert scores[1..][rest[k - |head|]] == scores[r[k]];
      }
    }
  }

  lemma ShiftedRowsIncrease(rest: seq<nat>, head: seq<nat>)
    requires forall a, b :: 0 <= a < b < |rest| ==> rest[a] < rest[b]
    requires head == [] || head == [0]
    ensures forall a, b :: 0 <= a < b < |head + Shift(rest)| ==> (head + Shift(rest))[a] < (head + Shift(rest))[b]
  {
  }

  lemma ShiftedRowsComplete(scores: seq<Score>, id: int, rest: seq<nat>, head: seq<nat>)
    requires |scores| > 0
    requires forall i :: 0 <= i < |scores| - 1 && scores[1..][i].rosterId == id ==> i in rest
    requires head == if scores[0].rosterId == id then [0] else []
    ensures forall i :: 0 <= i < |scores| && scores[i].rosterId == id ==> i in head + Shift(rest)
  {
    var r := head + Shift(rest);
    forall i | 0 <= i < |scores| && scores[i].rosterId == id ensures i in r {
      if i > 0 {
        assert scores[1..][i - 1] == scores[i];
        var k :| 0 <= k < |rest| && rest[k] == i - 1;
        assert r[|head| + k] == i;
      } else {
        assert r[0] == 0;
      }
    }
  }

  /** The win probabilities of one roster's rows, in row order: with one row
      per week, entry k is week k + 1 of its season. Entry k is the
      probability at the k-th row of the roster, so every row of the roster
      contributes exactly once and no other row does. */
  function RosterWinProbs(scores: seq<Score>, probs: seq<real>, id: int): (p: seq<real>)
    requires |probs| == |scores|
    ensures |p| <= |scores|
    ensures forall k :: 0 <= k < |p| ==> RowOf(scores, probs, id, p[k])
    ensures |p| == |RosterRows(scores, id)|
    ensures forall k :: 0 <= k < |p| ==> p[k] == probs[RosterRows(scores, id)[k]]
  {
    if |scores| == 0 then []
    else
      var rest := RosterWinProbs(scores[1..], probs[1..], id);
      var head := if scores[0].rosterId == id then [probs[0]] else [];
      RosterWinStep(scores, probs, id, rest, head);
      RowsGiveRowOf(scores, probs, id, head + rest);
      head + rest
  }

  lemma RosterWinStep(scores: seq<Score>, probs: seq<real>, id: int, rest: seq<real>, head: seq<real>)
    requires |probs| == |scores| > 0
    requires |rest| == |RosterRows(scores[1..], id)|
    requires forall k :: 0 <= k < |rest| ==> rest[k] == probs[1..][RosterRows(scores[1..], id)[k]]
    requires head == if scores[0].rosterId == id then [probs[0]] else []
    ensures |head + rest| == |RosterRows(scores, id)|
    ensures forall k :: 0 <= k < |head + rest| ==> (head + rest)[k] == probs[RosterRows(scores, id)[k]]
  {
    var rows, tail := RosterRows(scores, id), RosterRows(scores[1..], id);
    var first: seq<nat> := if scores[0].rosterId == id then [0] else [];
    assert rows == first + Shift(tail);
    forall k | 0 <= k < |head + rest| ensures (head + rest)[k] == probs[rows[k]] {
      if k >= |head| {
        assert rows[k] == tail[k - |head|] + 1;
      }
    }
  }

  /** Probabilities read at the roster's rows each come from a row of the roster. */
  lemma RowsGiveRowOf(scores: seq<Score>, probs: seq<real>, id: int, p: seq<real>)
    requires |probs| == |scores|
    requires |p| == |RosterRows(scores, id)|
    requires forall k :: 0 <= k < |p| ==> p[k] == probs[RosterRows(scores, id)[k]]
    ensures forall k :: 0 <= k < |p| ==> RowOf(scores, probs, id, p[k])
  {
    var rows := RosterRows(scores, id);
    RosterRowsExact(scores, id);
    forall k | 0 <= k < |p| ensures RowOf(scores, probs, id, p[k]) {
      assert scores[rows[k]].rosterId == id && probs[rows[k]] == p[k];
    }
  }

  /** When no week has more rows than there are teams, each roster's weekly
      probabilities lie in [0, 1], so its win-count table is non-negative and
      its expected wins lie between zero and the number of weeks. */
  lemma {:induction false} RosterExpectedWinsBounds(scores: seq<Score>, n: nat, id: int)
    requires n >= 2
    requires forall i :: 0 <= i < |scores| ==> |WeekRows(scores, scores[i].week)| <= n
    ensures Probabilities(RosterWinProbs(scores, WinProbs(scores, n), id))
    ensures 0.0 <= ExpectedWins(RosterWinProbs(scores, WinProbs(scores, n), id))
                <= |RosterWinProbs(scores, WinProbs(scores, n), id)| as real
  {
    var probs := WinProbs(scores, n);
    var p := RosterWinProbs(scores, probs, id);
    forall k | 0 <= k < |p| ensures 0.0 <= p[k] <= 1.0 {
      RowInRange(scores, n, id, p[k]);
    }
    ExpectedWinsBounds(p);
  }

  /** Weekly probabilities in [0, 1] give expected wins between zero and the
      number of weeks. */
  lemma {:induction false} ExpectedWinsBounds(p: seq<real>)
    requires Probabilities(p)
    ensures 0.0 <= ExpectedWins(p) <= |p| as real
  {
    SumBounds(p, 0.0, 1.0);
  }

  lemma {:induction false} RowInRange(scores: seq<Score>, n: nat, id: int, q: real)
    requires n >= 2
    requires forall i :: 0 <= i < |scores| ==> |WeekRows(scores, scores[i].week)| <= n
    requires RowOf(scores, WinProbs(scores, n), id, q)
    ensures 0.0 <= q <= 1.0
  {
    var probs := WinProbs(scores, n);
    var i :| 0 <= i < |scores| && scores[i].rosterId == id && probs[i] == q;
    WinProbsOrder(scores, n, i, i);
  }

  /** A scenario's mass as the script forms it: the product of the win
      probabilities of the weeks it wins times the product of the loss
      probabilities of the others, weeks taken in row order. Week w of the
      season is index w - 1. */
  function ScenarioMass(p: seq<real>, s: seq<nat>): real
  {
    WinsUpTo(p, s, |p|) * LossesProb(p, s, |p|)
  }

  /** The script's grouped sum over (roster, n_wins): the mass of the listed
      scenarios that win exactly n weeks. */
  function GroupMass(p: seq<real>, scs: seq<seq<nat>>, n: nat): real
  {
    if |scs| == 0 then 0.0
    else
      var s := scs[|scs| - 1];
      GroupMass(p, scs[..|scs| - 1], n) + (if |s| == n then ScenarioMass(p, s) else 0.0)
  }

  lemma {:induction false} GroupMassIsBucket(p: seq<real>, scs: seq<seq<nat>>, n: nat)
    ensures GroupMass(p, scs, n) == Bucket(p, scs, n)
  {
    if |scs| > 0 {
      GroupMassIsBucket(p, scs[..|scs| - 1], n);
      WinsTimesLossesIsMass(p, scs[|scs| - 1], |p|);
    }
  }

  /** The win-count table of a roster: entry n is the probability of exactly
      n wins, summed over every subset of the weeks played. */
  function ProbTable(p: seq<real>): (d: seq<real>)
    ensures |d| == |p| + 1
  {
    seq(|p| + 1, n requires 0 <= n <= |p| => GroupMass(p, Scenarios(|p|), n))
  }

  /** The script's table is the win-count distribution of the team metrics:
      non-negative when the probabilities are, summing to one. */
  lemma {:induction false} ProbTableIsProbNWins(p: seq<real>)
    ensures ProbTable(p) == ProbNWins(p)
    ensures Sum(ProbTable(p)) == 1.0
    ensures Probabilities(p) ==> forall n :: 0 <= n <= |p| ==> ProbTable(p)[n] >= 0.0
  {
    ScenariosBelow(|p|);
    ScenariosIncreasing(|p|);
    forall n | 0 <= n <= |p| ensures ProbTable(p)[n] == ProbNWins(p)[n] {
      GroupMassIsBucket(p, Scenarios(|p|), n);
      TallyBucketsBySize(p, Scenarios(|p|), n);
    }
    ProbNWinsSumsToOne(p);
    if Probabilities(p) {
      ProbNWinsNonNegative(p);
    }
  }

  /** `expected_value`: the values weighted by the weights, summed. */
  function ExpectedValue(values: seq<real>, weights: seq<real>): real
    requires |values| == |weights|
  {
    Dot(values, weights)
  }

  /** `exp_w`: the expected value of n_wins under the win-count table. */
  function ExpectedWins(p: seq<real>): (e: real)
    ensures e == Sum(p)
  {
    var d := ProbTable(p);
    ProbTableIsProbNWins(p);
    DotCountsIsWeightedSum(d);
    ProbNWinsMean(p);
    ExpectedValue(Counts(|d|), d)
  }

  /** `delta_w`: expected wins minus actual wins, that is the sum of the weekly
      win probabilities minus the wins. */
  function DeltaW(p: seq<real>, wins: int): (r: real)
    ensures r == Sum(p) - wins as real
    ensures r > 0.0 <==> ExpectedWins(p) > wins as real
  {
    ExpectedWins(p) - wins as real
  }

  // ---------------------------------------------------------------------------
  // Custom seeding order
  // ---------------------------------------------------------------------------

  /** A row of the league table: roster, short name, wins and expected wins. */
  datatype Row = Row(rosterId: int, shortName: string, wins: int, expW: real)

  /** A row joined with a configured seed. */
  datatype SeededRow = SeededRow(row: Row, seed: int)

  /** Row r and seeding entry e share the short name, giving the joined row x. */
  ghost predicate Joined(rows: seq<Row>, seeding: seq<League.SeedEntry>, x: SeededRow)
  {
    exists i, j :: 0 <= i < |rows| && 0 <= j < |seeding| && rows[i].shortName == seeding[j].shortName
                   && x == SeededRow(rows[i], seeding[j].seed)
  }

  /** The seeding entries matching one row, in seeding order. */
  function MatchesOf(r: Row, seeding: seq<League.SeedEntry>): (m: seq<SeededRow>)
    ensures forall x :: x in m <==> exists j :: 0 <= j < |seeding| && r.shortName == seeding[j].shortName && x == SeededRow(r, seeding[j].seed)
  {
    if |seeding| == 0 then []
    else
      var rest := MatchesOf(r, seeding[1..]);
      assert forall j :: 1 <= j < |seeding| ==> seeding[j] == seeding[1..][j - 1];
      (if r.shortName == seeding[0].shortName then [SeededRow(r, seeding[0].seed)] else []) + rest
  }

  /** The inner join on short name, in the order of the rows: a row without a
      seeding entry is dropped, one with two entries appears twice. */
  function MergeSeeding(rows: seq<Row>, seeding: seq<League.SeedEntry>): (m: seq<SeededRow>)
    ensures forall x :: x in m <==> Joined(rows, seeding, x)
  {
    if |rows| == 0 then []
    else
      var here := MatchesOf(rows[0], seeding);
      var rest := MergeSeeding(rows[1..], seeding);
      forall x ensures x in here + rest <==> Joined(rows, seeding, x) {
        if x in rest {
          var i, j :| 0 <= i < |rows[1..]| && 0 <= j < |seeding| && rows[1..][i].shortName == seeding[j].shortName
                      && x == SeededRow(rows[1..][i], seeding[j].seed);
          assert rows[i + 1] == rows[1..][i];
        }
        if Joined(rows, seeding, x) {
          var i, j :| 0 <= i < |rows| && 0 <= j < |seeding| && rows[i].shortName == seeding[j].shortName
                      && x == SeededRow(rows[i], seeding[j].seed);
          if i > 0 {
            assert rows[1..][i - 1] == rows[i];
            assert Joined(rows[1..], seeding, x);
          }
        }
      }
      here + rest
  }

  function SeedKey(x: SeededRow): real
  {
    x.seed as real
  }

  /** With a custom seeding the joined rows are listed by seed, lowest first. */
  function CustomSeeding(rows: seq<Row>, seeding: seq<League.SeedEntry>): (r: seq<SeededRow>)
    ensures multiset(r) == multiset(MergeSeeding(rows, seeding))
    ensures forall i, j :: 0 <= i < j < |r| ==> r[i].seed <= r[j].seed
  {
    var s := Sort(MergeSeeding(rows, seeding), SeedKey);
    forall i, j | 0 <= i < j < |s| ensures s[i].seed <= s[j].seed {
      assert SeedKey(s[i]) <= SeedKey(s[j]);
    }
    s
  }

  /** The seeded table holds exactly the rows that have a seeding entry, each
      with that entry's seed. */
  lemma {:induction false} CustomSeedingRows(rows: seq<Row>, seeding: seq<League.SeedEntry>, x: SeededRow)
    ensures x in CustomSeeding(rows, seeding) <==> Joined(rows, seeding, x)
  {
    var m := MergeSeeding(rows, seeding);
    assert x in CustomSeeding(rows, seeding) <==> x in multiset(m);
  }
}
