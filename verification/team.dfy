/** A team's season (src/Classes/Team.py): the weekly performances, the
    win/loss counters, and the metrics recomputed after every week. */
module Team {
  import opened Wrappers
  import opened RealSeq
  import opened KeySort
  import Metrics
  import Names
  import RankProbability
  import WinDistribution

  /** One played week: own points and rank, the opponent's, and whether it was won. */
  datatype WeekPerformance = WeekPerformance(
    week: int, points: real, rank: int,
    adversaryPoints: real, adversaryRank: Option<int>,
    win: bool)

  /** Records a week. Without an opponent the points are compared with None,
      which raises a TypeError: no performance is built. */
  function NewWeekPerformance(week: int, points: real, rank: int,
                              adversaryPoints: Option<real>, adversaryRank: Option<int>): (r: Option<WeekPerformance>)
    ensures r.None? <==> adversaryPoints.None?
    ensures r.Some? ==> (r.value.win <==> points > adversaryPoints.value)
    ensures r.Some? ==> r.value.week == week && r.value.points == points && r.value.rank == rank
  {
    match adversaryPoints
    case None => None
    case Some(a) => Some(WeekPerformance(week, points, rank, a, adversaryRank, points > a))
  }

  /** Of two opponents at most one wins the week, and on equal points both lose. */
  lemma {:induction false} AtMostOneWinner(week: int, a: real, rankA: int, b: real, rankB: int)
    ensures var wa := NewWeekPerformance(week, a, rankA, Some(b), Some(rankB)).value;
            var wb := NewWeekPerformance(week, b, rankB, Some(a), Some(rankA)).value;
            !(wa.win && wb.win) && (a == b ==> !wa.win && !wb.win) && (a != b ==> wa.win || wb.win)
  {
  }

  /** The points of each week, in history order. */
  function Points(weeks: seq<WeekPerformance>): (r: seq<real>)
    ensures |r| == |weeks| && forall k :: 0 <= k < |weeks| ==> r[k] == weeks[k].points
  {
    seq(|weeks|, k requires 0 <= k < |weeks| => weeks[k].points)
  }

  /** The win probability of each week, read off its rank in a twelve-team league. */
  function WinProbs(weeks: seq<WeekPerformance>): (r: seq<real>)
    ensures |r| == |weeks|
    ensures forall k :: 0 <= k < |weeks| ==> r[k] == RankProbability.TeamWinProb(weeks[k].rank)
  {
    seq(|weeks|, k requires 0 <= k < |weeks| => RankProbability.TeamWinProb(weeks[k].rank))
  }

  /** The metrics a team holds: none before the first update, then the four
      metrics of src/Classes/Team.py, each possibly uncomputed. */
  datatype TeamMetrics =
    | NoMetrics
    | Computed(avg: Option<Metrics.Value>, std: Option<Metrics.Value>,
               expw: Option<Metrics.Value>, probNWins: Option<Metrics.Value>)

  /** Rebuilds every metric from the whole history: average and spread of the
      points, expected wins and the win-count distribution of the win probabilities. */
  function UpdateMetrics(weeks: seq<WeekPerformance>): (m: TeamMetrics)
    ensures m.Computed?
    ensures |weeks| == 0 ==> m.avg.None? && m.std.None? && m.expw.None? && m.probNWins.None?
    ensures |weeks| > 0 ==>
      && m.avg == Some(Metrics.Number(Metrics.Average(Points(weeks))))
      && m.std == Some(Metrics.Number(Metrics.Variance(Points(weeks))))
      && m.expw == Some(Metrics.Number(Sum(WinProbs(weeks))))
      && m.probNWins == Some(Metrics.Distribution(WinDistribution.ProbNWins(WinProbs(weeks))))
  {
    var points := Points(weeks);
    var winProbs := WinProbs(weeks);
    Computed(
      Metrics.NewMetric(Metrics.AverageMetric, points),
      Metrics.NewMetric(Metrics.StdDevMetric, points),
      Metrics.NewMetric(Metrics.ExpectedWinsMetric, winProbs),
      Metrics.NewMetric(Metrics.ProbNWinsMetric, winProbs))
  }

  /** The expected wins a team shows is the mean of the win-count distribution it
      shows, and lies between 0 and the number of weeks when every rank is 1..12. */
  lemma {:induction false} MetricsAgree(weeks: seq<WeekPerformance>)
    requires |weeks| > 0
    requires forall k :: 0 <= k < |weeks| ==> 1 <= weeks[k].rank <= 12
    ensures var m := UpdateMetrics(weeks);
            && m.expw.value.x == WeightedSum(m.probNWins.value.d, 0)
            && 0.0 <= m.expw.value.x <= |weeks| as real
  {
    var p := WinProbs(weeks);
    WinDistribution.ProbNWinsMean(p);
    SumBounds(p, 0.0, 1.0);
  }

  /** A team: names, league data, record, week-sorted history and metrics. */
  datatype Team = Team(
    name: string, shortName: string, rosterId: int,
    division: Option<string>, seed: Option<int>,
    wins: nat, losses: nat,
    weeks: seq<WeekPerformance>, metrics: TeamMetrics)

  /** The constructor as written: the short name is the second whitespace token,
      and a name with fewer than two tokens raises an IndexError. */
  function NewTeamAsWritten(name: string, rosterId: int, division: Option<string>, seed: Option<int>): (r: Option<Team>)
    ensures r.None? <==> |Names.Split(name)| < 2
  {
    var tokens := Names.Split(name);
    if |tokens| < 2 then None
    else Some(Team(name, tokens[1], rosterId, division, seed, 0, 0, [], NoMetrics))
  }

  /** The constructor with the short name the league computes: the second token,
      or the whole name when there is no second token. */
  function NewTeam(name: string, rosterId: int, division: Option<string>, seed: Option<int>): (r: Team)
    ensures r.shortName == Names.ShortName(name)
    ensures r.name == name && r.rosterId == rosterId && r.division == division && r.seed == seed
  {
    Team(name, Names.ShortName(name), rosterId, division, seed, 0, 0, [], NoMetrics)
  }

  /** Wherever the constructor as written succeeds, it builds the corrected team. */
  lemma {:induction false} NewTeamAgrees(name: string, rosterId: int, division: Option<string>, seed: Option<int>)
    ensures NewTeamAsWritten(name, rosterId, division, seed).Some? ==>
            NewTeamAsWritten(name, rosterId, division, seed).value == NewTeam(name, rosterId, division, seed)
  {
  }

  /** A one-word team name: the constructor as written fails, the corrected one
      uses the name itself. */
  lemma {:induction false} OneWordName()
    ensures NewTeamAsWritten("Bears", 1, None, None).None?
    ensures NewTeam("Bears", 1, None, None).shortName == "Bears"
  {
    assert Names.Token("Bears") by {
      forall k | 0 <= k < 5 ensures !Names.IsSpace("Bears"[k]) {
      }
    }
    Names.ShortNameOfOneWord("Bears");
    assert "Bears" + "" == "Bears";
    Names.SplitCons("Bears", "");
  }

  /** Number of won weeks. */
  function WinCount(weeks: seq<WeekPerformance>): (n: nat)
    ensures n <= |weeks|
  {
    if |weeks| == 0 then 0 else (if weeks[0].win then 1 else 0) + WinCount(weeks[1..])
  }

  /** The sort key of the history. */
  function WeekKey(w: WeekPerformance): real
  {
    w.week as real
  }

  /** What every team keeps true: the counters count the history, the history is
      sorted by week, and the metrics are those of the history. */
  ghost predicate Consistent(team: Team)
  {
    && team.wins == WinCount(team.weeks)
    && team.wins + team.losses == |team.weeks|
    && Sorted(team.weeks, WeekKey)
    && team.metrics == (if |team.weeks| == 0 then NoMetrics else UpdateMetrics(team.weeks))
  }

  /** A new team has no record and no history. */
  lemma {:induction false} NewTeamConsistent(name: string, rosterId: int, division: Option<string>, seed: Option<int>)
    ensures var t := NewTeam(name, rosterId, division, seed);
            Consistent(t) && t.wins == 0 && t.losses == 0 && t.weeks == []
  {
  }

  /** Appends the week, counts it as a win or a loss, re-sorts the history by
      week (stably) and recomputes the metrics. */
  function InsertWeek(team: Team, w: WeekPerformance): (r: Team)
    ensures multiset(r.weeks) == multiset(team.weeks) + multiset{w}
    ensures Sorted(r.weeks, WeekKey)
    ensures r.wins == team.wins + (if w.win then 1 else 0)
    ensures r.losses == team.losses + (if w.win then 0 else 1)
    ensures r.metrics == UpdateMetrics(r.weeks)
    ensures r == team.(wins := r.wins, losses := r.losses, weeks := r.weeks, metrics := r.metrics)
  {
    var weeks := Sort(team.weeks + [w], WeekKey);
    var wins := if w.win then team.wins + 1 else team.wins;
    var losses := if w.win then team.losses else team.losses + 1;
    team.(wins := wins, losses := losses, weeks := weeks, metrics := UpdateMetrics(weeks))
  }

  lemma {:induction false} WinCountAppend(a: seq<WeekPerformance>, b: seq<WeekPerformance>)
    ensures WinCount(a + b) == WinCount(a) + WinCount(b)
  {
    if |a| == 0 {
      assert a + b == b;
    } else {
      assert (a + b)[1..] == a[1..] + b;
      WinCountAppend(a[1..], b);
    }
  }

  lemma {:induction false} WinCountInsert(x: WeekPerformance, s: seq<WeekPerformance>, key: WeekPerformance -> real)
    ensures WinCount(Insert(x, s, key)) == WinCount(s) + (if x.win then 1 else 0)
  {
    if |s| > 0 && key(x) >= key(s[0]) {
      WinCountInsert(x, s[1..], key);
      assert Insert(x, s, key)[1..] == Insert(x, s[1..], key);
    } else if |s| > 0 {
      assert Insert(x, s, key)[1..] == s;
    }
  }

  /** Sorting the history does not change the number of wins. */
  lemma {:induction false} WinCountSort(s: seq<WeekPerformance>, key: WeekPerformance -> real)
    ensures WinCount(Sort(s, key)) == WinCount(s)
  {
    if |s| > 0 {
      var init := s[..|s| - 1];
      assert s == init + [s[|s| - 1]];
      WinCountSort(init, key);
      WinCountInsert(s[|s| - 1], Sort(init, key), key);
      WinCountAppend(init, [s[|s| - 1]]);
      assert WinCount([s[|s| - 1]]) == (if s[|s| - 1].win then 1 else 0);
    }
  }

  /** Inserting a week keeps a team consistent. */
  lemma {:induction false} InsertWeekConsistent(team: Team, w: WeekPerformance)
    requires Consistent(team)
    ensures Consistent(InsertWeek(team, w))
    ensures |InsertWeek(team, w).weeks| == |team.weeks| + 1
  {
    var weeks := team.weeks + [w];
    var r := InsertWeek(team, w);
    assert r.weeks == Sort(weeks, WeekKey);
    WinCountSort(weeks, WeekKey);
    WinCountAppend(team.weeks, [w]);
    assert WinCount([w]) == (if w.win then 1 else 0);
    ConsistentStep(team, r, w.win);
  }

  /** A team one week ahead of a consistent one, with the counts and metrics
      of that week, is consistent. */
  lemma {:induction false} ConsistentStep(team: Team, r: Team, won: bool)
    requires Consistent(team)
    requires |r.weeks| == |team.weeks| + 1
    requires WinCount(r.weeks) == WinCount(team.weeks) + (if won then 1 else 0)
    requires r.wins == team.wins + (if won then 1 else 0)
    requires r.losses == team.losses + (if won then 0 else 1)
    requires Sorted(r.weeks, WeekKey) && r.metrics == UpdateMetrics(r.weeks)
    ensures Consistent(r)
  {
  }

  /** Inserts the weeks one after another. */
  function InsertAll(team: Team, ws: seq<WeekPerformance>): Team
    decreases |ws|
  {
    if |ws| == 0 then team else InsertAll(InsertWeek(team, ws[0]), ws[1..])
  }

  /** After any sequence of inserts: the history holds exactly the old and the
      inserted weeks, and the counters grew by the inserted wins and losses. */
  lemma {:induction false} InsertAllCounts(team: Team, ws: seq<WeekPerformance>)
    ensures var r := InsertAll(team, ws);
            && multiset(r.weeks) == multiset(team.weeks) + multiset(ws)
            && r.wins == team.wins + WinCount(ws)
            && r.wins + r.losses == team.wins + team.losses + |ws|
    decreases |ws|
  {
    if |ws| > 0 {
      var next := InsertWeek(team, ws[0]);
      assert InsertAll(team, ws) == InsertAll(next, ws[1..]);
      InsertAllCounts(next, ws[1..]);
      CountsStep(team, next, InsertAll(next, ws[1..]), ws);
    }
  }

  /** One insert followed by the rest: the counts add up. */
  lemma {:induction false} CountsStep(team: Team, next: Team, r: Team, ws: seq<WeekPerformance>)
    requires |ws| > 0
    requires multiset(next.weeks) == multiset(team.weeks) + multiset{ws[0]}
    requires next.wins == team.wins + (if ws[0].win then 1 else 0)
    requires next.wins + next.losses == team.wins + team.losses + 1
    requires multiset(r.weeks) == multiset(next.weeks) + multiset(ws[1..])
    requires r.wins == next.wins + WinCount(ws[1..])
    requires r.wins + r.losses == next.wins + next.losses + |ws[1..]|
    ensures multiset(r.weeks) == multiset(team.weeks) + multiset(ws)
    ensures r.wins == team.wins + WinCount(ws)
    ensures r.wins + r.losses == team.wins + team.losses + |ws|
  {
    assert ws == [ws[0]] + ws[1..];
    assert multiset(ws) == multiset{ws[0]} + multiset(ws[1..]);
    WinCountAppend([ws[0]], ws[1..]);
    assert WinCount([ws[0]]) == (if ws[0].win then 1 else 0);
  }

  /** Any sequence of inserts keeps a team consistent. */
  lemma {:induction false} InsertAllConsistent(team: Team, ws: seq<WeekPerformance>)
    requires Consistent(team)
    ensures Consistent(InsertAll(team, ws))
    decreases |ws|
  {
    if |ws| > 0 {
      InsertWeekConsistent(team, ws[0]);
      InsertAllConsistent(InsertWeek(team, ws[0]), ws[1..]);
    }
  }

  /** A team built from its weeks, inserted in any order: its record counts
      those weeks and its history holds them sorted by week. */
  lemma {:induction false} SeasonRecord(name: string, rosterId: int, division: Option<string>, seed: Option<int>,
                                        ws: seq<WeekPerformance>)
    ensures var t := InsertAll(NewTeam(name, rosterId, division, seed), ws);
            && Consistent(t)
            && multiset(t.weeks) == multiset(ws)
            && t.wins == WinCount(ws) && t.losses == |ws| - WinCount(ws)
  {
    var t0 := NewTeam(name, rosterId, division, seed);
    NewTeamConsistent(name, rosterId, division, seed);
    InsertAllConsistent(t0, ws);
    FreshCounts(t0, ws);
  }

  /** The counts of a team that started with no record and no history. */
  lemma {:induction false} FreshCounts(t0: Team, ws: seq<WeekPerformance>)
    requires t0.wins == 0 && t0.losses == 0 && t0.weeks == []
    ensures var t := InsertAll(t0, ws);
            && multiset(t.weeks) == multiset(ws)
            && t.wins == WinCount(ws) && t.losses == |ws| - WinCount(ws)
  {
    InsertAllCounts(t0, ws);
  }

  /** The outcome of a week lookup: the entry, None, or a failed index. */
  datatype Lookup = Entry(perf: WeekPerformance) | NoEntry | IndexError

  /** Entry week - 1 of the history when week does not exceed its length,
      otherwise nothing. A week below 1 indexes from the end, as a Python
      negative index does, and fails beyond the start. */
  function GetWeek(team: Team, week: int): (r: Lookup)
    ensures 1 <= week <= |team.weeks| ==> r == Entry(team.weeks[week - 1])
    ensures week > |team.weeks| <==> r == NoEntry
    ensures r == IndexError <==> week <= 0 && 1 - week > |team.weeks|
  {
    var n := |team.weeks|;
    if week > n then NoEntry
    else if week >= 1 then Entry(team.weeks[week - 1])
    else if week - 1 >= -n then Entry(team.weeks[n + week - 1])
    else IndexError
  }

  /** Points of each week, in history order. */
  function GetPoints(team: Team): (r: seq<real>)
    ensures |r| == |team.weeks| && forall k :: 0 <= k < |team.weeks| ==> r[k] == team.weeks[k].points
  {
    Points(team.weeks)
  }

  /** Ranks of each week, in history order. */
  function GetRanks(team: Team): (r: seq<int>)
    ensures |r| == |team.weeks| && forall k :: 0 <= k < |team.weeks| ==> r[k] == team.weeks[k].rank
  {
    seq(|team.weeks|, k requires 0 <= k < |team.weeks| => team.weeks[k].rank)
  }

  /** Every week 1..n recorded exactly once. */
  ghost predicate WeeksOneToN(weeks: seq<WeekPerformance>)
  {
    && (forall k :: 0 <= k < |weeks| ==> 1 <= weeks[k].week <= |weeks|)
    && (forall i, j :: 0 <= i < j < |weeks| ==> weeks[i].week != weeks[j].week)
  }

  /** In a consistent team whose history holds weeks 1..n once each, position
      k holds week k + 1: getWeek(w) returns week w, and the points and ranks
      lists are indexed by week. */
  lemma {:induction false} HistoryByWeek(team: Team)
    requires Consistent(team) && WeeksOneToN(team.weeks)
    ensures forall k :: 0 <= k < |team.weeks| ==> team.weeks[k].week == k + 1
    ensures forall w :: 1 <= w <= |team.weeks| ==> GetWeek(team, w).perf.week == w
    ensures forall w :: 1 <= w <= |team.weeks| ==>
              GetPoints(team)[w - 1] == GetWeek(team, w).perf.points &&
              GetRanks(team)[w - 1] == GetWeek(team, w).perf.rank
  {
    SortedOneToN(team.weeks);
  }

  /** A history sorted by week holding weeks 1..n once each holds week k + 1 at position k. */
  lemma {:induction false} SortedOneToN(s: seq<WeekPerformance>)
    requires Sorted(s, WeekKey) && WeeksOneToN(s)
    ensures forall k :: 0 <= k < |s| ==> s[k].week == k + 1
  {
    var n := |s|;
    forall i, j | 0 <= i < j < n ensures s[i].week < s[j].week {
      assert WeekKey(s[i]) <= WeekKey(s[j]);
    }
    forall k | 0 <= k < n ensures s[k].week == k + 1 {
      StrictlyIncreasing(s, 0, k);
      StrictlyIncreasing(s, k, n - 1);
    }
  }

  /** Along a strictly increasing run of integers, the values grow at least as fast as the positions. */
  lemma {:induction false} StrictlyIncreasing(s: seq<WeekPerformance>, i: nat, j: nat)
    requires i <= j < |s|
    requires forall a, b :: 0 <= a < b < |s| ==> s[a].week < s[b].week
    ensures s[j].week - s[i].week >= j - i
    decreases j - i
  {
    if i < j {
      StrictlyIncreasing(s, i + 1, j);
    }
  }
}
