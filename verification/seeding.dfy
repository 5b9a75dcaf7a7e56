/** The seeding passes: a division phase that ranks the teams of each
    division and writes division seeds 1..M, then a league phase that ranks
    every team and writes league seeds 1..N. The same passes serve the
    criteria-chain engine (src/Classes/SeedEngine.py) and the older
    calculator (src/Classes/SeedCalculator.py); only the comparison differs.
    Both sort with Python's stable sort, descending; here a stable insertion
    sort stands in, over team positions. */
module Seeding {
  import opened Wrappers
  import opened SeedCriteria
  import SeedCalculator
  import Team

  /** Which comparison a pass sorts by. */
  datatype Comparator =
    | Chain(criteria: seq<Criterion>)  // a seeder's criteria chain
    | CalculatorDivision               // SeedCalculator's division comparison
    | CalculatorLeague                 // SeedCalculator's league comparison

  /** The comparison's verdict on a and b; None when it raises. */
  function Cmp(k: Comparator, a: SeedTeam, b: SeedTeam): (r: Option<int>)
    ensures r.Some? ==> -1 <= r.value <= 1
  {
    match k
    case Chain(criteria) => Compare(criteria, a, b)
    case CalculatorDivision => Some(SeedCalculator.DivisionComp(a, b))
    case CalculatorLeague => SeedCalculator.LeagueComp(a, b)
  }

  /** a ranks strictly above b. */
  predicate Beats(k: Comparator, a: SeedTeam, b: SeedTeam)
  {
    Cmp(k, a, b) == Some(1)
  }

  /** The comparison looks at wins first: the comparators of both seeders. */
  predicate WinsFirst(k: Comparator)
  {
    k.Chain? ==> |k.criteria| > 0 && k.criteria[0] == Record
  }

  lemma {:induction false} WinsDecide(k: Comparator, a: SeedTeam, b: SeedTeam)
    requires WinsFirst(k)
    ensures a.team.wins > b.team.wins ==> Beats(k, a, b)
    ensures a.team.wins < b.team.wins ==> Cmp(k, a, b) == Some(-1)
  {
    if k.Chain? {
      RecordFirst(k.criteria, a, b);
    }
  }

  ghost predicate Positions(s: seq<nat>, n: nat)
  {
    forall i :: 0 <= i < |s| ==> s[i] < n
  }

  ghost predicate Distinct(s: seq<nat>)
  {
    forall i, j :: 0 <= i < j < |s| ==> s[i] != s[j]
  }

  /** Places position x before the first entry it beats, after every entry it
      does not: entries that tie with x stay ahead of it. */
  function InsertBy(k: Comparator, teams: seq<SeedTeam>, x: nat, s: seq<nat>): (r: seq<nat>)
    requires x < |teams| && Positions(s, |teams|)
    ensures |r| == |s| + 1 && Positions(r, |teams|)
  {
    if |s| == 0 then [x]
    else if Beats(k, teams[x], teams[s[0]]) then [x] + s
    else
      assert s == [s[0]] + s[1..];
      [s[0]] + InsertBy(k, teams, x, s[1..])
  }

  /** Sorts positions best first, inserting them in input order, so that
      positions that tie keep their input order. */
  function SortBy(k: Comparator, teams: seq<SeedTeam>, s: seq<nat>): (r: seq<nat>)
    requires Positions(s, |teams|)
    ensures |r| == |s| && Positions(r, |teams|)
  {
    if |s| == 0 then []
    else
      var init := s[..|s| - 1];
      assert s == init + [s[|s| - 1]];
      InsertBy(k, teams, s[|s| - 1], SortBy(k, teams, init))
  }

  /** Inserting adds x and loses nothing. */
  lemma {:induction false} InsertByPermutes(k: Comparator, teams: seq<SeedTeam>, x: nat, s: seq<nat>)
    requires x < |teams| && Positions(s, |teams|)
    ensures multiset(InsertBy(k, teams, x, s)) == multiset(s) + multiset{x}
  {
    if |s| > 0 && !Beats(k, teams[x], teams[s[0]]) {
      InsertByPermutes(k, teams, x, s[1..]);
      assert s == [s[0]] + s[1..];
    }
  }

  /** Sorting is a permutation. */
  lemma {:induction false} SortByPermutes(k: Comparator, teams: seq<SeedTeam>, s: seq<nat>)
    requires Positions(s, |teams|)
    ensures multiset(SortBy(k, teams, s)) == multiset(s)
  {
    if |s| > 0 {
      var init := s[..|s| - 1];
      SortByPermutes(k, teams, init);
      InsertByPermutes(k, teams, s[|s| - 1], SortBy(k, teams, init));
      assert s == init + [s[|s| - 1]];
    }
  }

  lemma {:induction false} InsertByMembers(k: Comparator, teams: seq<SeedTeam>, x: nat, s: seq<nat>, y: nat)
    requires x < |teams| && Positions(s, |teams|)
    requires y in InsertBy(k, teams, x, s)
    ensures y == x || y in s
  {
    InsertByPermutes(k, teams, x, s);
    assert y in multiset(InsertBy(k, teams, x, s));
  }

  lemma {:induction false} InsertByDistinct(k: Comparator, teams: seq<SeedTeam>, x: nat, s: seq<nat>)
    requires x < |teams| && Positions(s, |teams|)
    requires Distinct(s) && x !in s
    ensures Distinct(InsertBy(k, teams, x, s))
  {
    if |s| > 0 && !Beats(k, teams[x], teams[s[0]]) {
      var tail := InsertBy(k, teams, x, s[1..]);
      assert x !in s[1..];
      assert Distinct(s[1..]) by {
        forall i, j | 0 <= i < j < |s| - 1 ensures s[1..][i] != s[1..][j] {
          assert s[1..][i] == s[i + 1] && s[1..][j] == s[j + 1];
        }
      }
      InsertByDistinct(k, teams, x, s[1..]);
      forall j | 0 <= j < |tail| ensures s[0] != tail[j] {
        InsertByMembers(k, teams, x, s[1..], tail[j]);
        if tail[j] != x {
          var m :| 0 <= m < |s[1..]| && s[1..][m] == tail[j];
          assert s[m + 1] == tail[j];
        }
      }
    }
  }

  /** Sorting positions that are all different gives positions that are all different. */
  lemma {:induction false} SortByDistinct(k: Comparator, teams: seq<SeedTeam>, s: seq<nat>)
    requires Positions(s, |teams|) && Distinct(s)
    ensures Distinct(SortBy(k, teams, s))
  {
    if |s| > 0 {
      var init := s[..|s| - 1];
      var x := s[|s| - 1];
      SortByDistinct(k, teams, init);
      SortByPermutes(k, teams, init);
      assert x !in multiset(init);
      assert x !in multiset(SortBy(k, teams, init));
      InsertByDistinct(k, teams, x, SortBy(k, teams, init));
    }
  }

  /** Wins never increase along the sequence of positions. */
  ghost predicate WinsDescending(teams: seq<SeedTeam>, s: seq<nat>)
    requires Positions(s, |teams|)
  {
    forall i, j :: 0 <= i < j < |s| ==> teams[s[i]].team.wins >= teams[s[j]].team.wins
  }

  lemma {:induction false} InsertByDescending(k: Comparator, teams: seq<SeedTeam>, x: nat, s: seq<nat>)
    requires WinsFirst(k) && x < |teams| && Positions(s, |teams|)
    requires WinsDescending(teams, s)
    ensures WinsDescending(teams, InsertBy(k, teams, x, s))
  {
    if |s| > 0 {
      WinsDecide(k, teams[x], teams[s[0]]);
      var r := InsertBy(k, teams, x, s);
      if Beats(k, teams[x], teams[s[0]]) {
        assert r == [x] + s;
        forall j | 0 <= j < |s| ensures teams[x].team.wins >= teams[s[j]].team.wins {
          if j > 0 {
            assert teams[s[0]].team.wins >= teams[s[j]].team.wins;
          }
        }
        DescendingCons(teams, x, s);
      } else {
        var tail := InsertBy(k, teams, x, s[1..]);
        InsertByDescending(k, teams, x, s[1..]);
        forall j | 0 <= j < |tail| ensures teams[s[0]].team.wins >= teams[tail[j]].team.wins {
          InsertByMembers(k, teams, x, s[1..], tail[j]);
        }
        assert r == [s[0]] + tail;
        DescendingCons(teams, s[0], tail);
      }
    }
  }

  /** A head with at least the wins of every later entry keeps the order descending. */
  lemma {:induction false} DescendingCons(teams: seq<SeedTeam>, h: nat, s: seq<nat>)
    requires h < |teams| && Positions(s, |teams|) && WinsDescending(teams, s)
    requires forall j :: 0 <= j < |s| ==> teams[h].team.wins >= teams[s[j]].team.wins
    ensures Positions([h] + s, |teams|) && WinsDescending(teams, [h] + s)
  {
    var r := [h] + s;
    forall i | 0 <= i < |r| ensures r[i] < |teams| {
      if i > 0 {
        assert r[i] == s[i - 1];
      }
    }
    forall i, j | 0 <= i < j < |r| ensures teams[r[i]].team.wins >= teams[r[j]].team.wins {
      assert r[j] == s[j - 1];
      if i > 0 {
        assert r[i] == s[i - 1];
      }
    }
  }

  /** A comparison that looks at wins first sorts by wins, most first. */
  lemma {:induction false} SortByDescending(k: Comparator, teams: seq<SeedTeam>, s: seq<nat>)
    requires WinsFirst(k) && Positions(s, |teams|)
    ensures WinsDescending(teams, SortBy(k, teams, s))
  {
    if |s| > 0 {
      SortByDescending(k, teams, s[..|s| - 1]);
      InsertByDescending(k, teams, s[|s| - 1], SortBy(k, teams, s[..|s| - 1]));
    }
  }

  lemma {:induction false} SortByMembers(k: Comparator, teams: seq<SeedTeam>, s: seq<nat>)
    requires Positions(s, |teams|)
    ensures forall i :: i in SortBy(k, teams, s) <==> i in s
  {
    SortByPermutes(k, teams, s);
    forall i ensures i in SortBy(k, teams, s) <==> i in s {
      assert i in SortBy(k, teams, s) <==> i in multiset(SortBy(k, teams, s));
      assert i in s <==> i in multiset(s);
    }
  }

  /** Where x stands in s. */
  function IndexOf(s: seq<nat>, x: nat): (i: nat)
    requires x in s
    ensures i < |s| && s[i] == x
    ensures forall j :: 0 <= j < i ==> s[j] != x
  {
    if s[0] == x then 0 else 1 + IndexOf(s[1..], x)
  }

  /** In a sequence without repeats, the entry at p stands at p. */
  lemma {:induction false} IndexOfDistinct(s: seq<nat>, p: nat)
    requires Distinct(s) && p < |s|
    ensures IndexOf(s, s[p]) == p
  {
  }

  /** A division label counts only when it is a non-empty string. */
  predicate Truthy(division: Option<string>)
  {
    division.Some? && |division.value| > 0
  }

  /** The team at position i belongs to division d. */
  predicate InDivision(teams: seq<SeedTeam>, i: nat, d: string)
  {
    i < |teams| && teams[i].team.division == Some(d)
  }

  /** The positions below n of the teams in division d, in list order. */
  function Members(teams: seq<SeedTeam>, d: string, n: nat): (r: seq<nat>)
    requires n <= |teams|
    ensures Positions(r, n)
    ensures forall i :: 0 <= i < |r| ==> InDivision(teams, r[i], d)
    ensures forall i: nat :: i < n && InDivision(teams, i, d) ==> i in r
  {
    if n == 0 then []
    else Members(teams, d, n - 1) + (if teams[n - 1].team.division == Some(d) then [n - 1] else [])
  }

  /** Each position is listed once. */
  lemma {:induction false} MembersDistinct(teams: seq<SeedTeam>, d: string, n: nat)
    requires n <= |teams|
    ensures Distinct(Members(teams, d, n))
  {
    if n > 0 {
      MembersDistinct(teams, d, n - 1);
    }
  }

  /** The teams of division d, best first. */
  function DivisionOrder(k: Comparator, teams: seq<SeedTeam>, d: string): (r: seq<nat>)
    ensures Positions(r, |teams|)
    ensures forall i: nat :: i in r <==> InDivision(teams, i, d)
  {
    var members := Members(teams, d, |teams|);
    SortByMembers(k, teams, members);
    SortBy(k, teams, members)
  }

  /** A division's ranking lists each of its teams once. */
  lemma {:induction false} DivisionOrderDistinct(k: Comparator, teams: seq<SeedTeam>, d: string)
    ensures Distinct(DivisionOrder(k, teams, d))
  {
    MembersDistinct(teams, d, |teams|);
    SortByDistinct(k, teams, Members(teams, d, |teams|));
  }

  /** The comparison of a with b does not raise. */
  ghost predicate Defined(k: Comparator, a: SeedTeam, b: SeedTeam)
  {
    Cmp(k, a, b).Some?
  }

  /** No comparison the division phase makes raises: any two teams of one division compare. */
  ghost predicate DivisionComparable(k: Comparator, teams: seq<SeedTeam>)
  {
    forall i, j {:trigger Defined(k, teams[i], teams[j])} :: 0 <= i < |teams| && 0 <= j < |teams| && i != j ==>
      (Truthy(teams[i].team.division) && teams[i].team.division == teams[j].team.division ==>
         Defined(k, teams[i], teams[j]))
  }

  /** The division seed of the team at i: one more than its place in its division. */
  function DivisionSeedOf(k: Comparator, teams: seq<SeedTeam>, i: nat): (seed: nat)
    requires i < |teams| && Truthy(teams[i].team.division)
    ensures 1 <= seed <= |DivisionOrder(k, teams, teams[i].team.division.value)|
  {
    1 + IndexOf(DivisionOrder(k, teams, teams[i].team.division.value), i)
  }

  /** The team at i after the division phase: seeded when it has a division,
      untouched otherwise. */
  function Seeded(k: Comparator, teams: seq<SeedTeam>, i: nat): (t: SeedTeam)
    requires i < |teams|
  {
    if Truthy(teams[i].team.division) then teams[i].(divisionSeed := Some(DivisionSeedOf(k, teams, i)))
    else teams[i]
  }

  /** The first n teams after the division phase. */
  function SeededUpTo(k: Comparator, teams: seq<SeedTeam>, n: nat): (r: seq<SeedTeam>)
    requires n <= |teams|
    ensures |r| == n && forall i :: 0 <= i < n ==> r[i] == Seeded(k, teams, i)
  {
    if n == 0 then [] else SeededUpTo(k, teams, n - 1) + [Seeded(k, teams, n - 1)]
  }

  /** Groups the teams with a non-empty division label, ranks each group and
      writes seeds 1..M in that order; teams without a division are left alone. */
  function DivisionPhase(k: Comparator, teams: seq<SeedTeam>): (r: seq<SeedTeam>)
    requires DivisionComparable(k, teams)
    ensures |r| == |teams|
    ensures forall i {:trigger r[i]} :: 0 <= i < |teams| && !Truthy(teams[i].team.division) ==> r[i] == teams[i]
    ensures forall i {:trigger r[i]} :: 0 <= i < |teams| && Truthy(teams[i].team.division) ==>
              r[i] == teams[i].(divisionSeed := Some(DivisionSeedOf(k, teams, i)))
  {
    SeededUpTo(k, teams, |teams|)
  }

  /** Within each division the seeds are exactly 1..M, given in ranking order:
      the team ranked p-th gets seed p + 1, and every member's seed is one of these. */
  lemma {:induction false} DivisionSeedsOneToM(k: Comparator, teams: seq<SeedTeam>, d: string)
    requires DivisionComparable(k, teams) && |d| > 0
    ensures var order := DivisionOrder(k, teams, d);
            var r := DivisionPhase(k, teams);
            && (forall p :: 0 <= p < |order| ==> r[order[p]].divisionSeed == Some(p + 1))
            && (forall i :: 0 <= i < |teams| && teams[i].team.division == Some(d) ==>
                  1 <= r[i].divisionSeed.value <= |order|)
  {
    var order := DivisionOrder(k, teams, d);
    forall p | 0 <= p < |order| ensures DivisionPhase(k, teams)[order[p]].divisionSeed == Some(p + 1) {
      SeedAt(k, teams, d, p);
    }
  }

  /** The team ranked p-th in division d gets seed p + 1. */
  lemma {:induction false} SeedAt(k: Comparator, teams: seq<SeedTeam>, d: string, p: nat)
    requires DivisionComparable(k, teams) && |d| > 0
    requires p < |DivisionOrder(k, teams, d)|
    ensures DivisionPhase(k, teams)[DivisionOrder(k, teams, d)[p]].divisionSeed == Some(p + 1)
  {
    var order := DivisionOrder(k, teams, d);
    var i := order[p];
    assert i < |teams|;
    assert i in order;
    assert teams[i].team.division == Some(d);
    DivisionOrderDistinct(k, teams, d);
    IndexOfDistinct(order, p);
    assert DivisionSeedOf(k, teams, i) == p + 1;
    var r := DivisionPhase(k, teams);
    assert r[i] == teams[i].(divisionSeed := Some(DivisionSeedOf(k, teams, i)));
  }

  /** Two teams of one division never share a division seed. */
  lemma {:induction false} DivisionSeedsDistinct(k: Comparator, teams: seq<SeedTeam>, i: nat, j: nat)
    requires DivisionComparable(k, teams)
    requires i < |teams| && j < |teams| && i != j
    requires Truthy(teams[i].team.division) && teams[i].team.division == teams[j].team.division
    ensures DivisionPhase(k, teams)[i].divisionSeed != DivisionPhase(k, teams)[j].divisionSeed
  {
    var order := DivisionOrder(k, teams, teams[i].team.division.value);
    PhaseSeed(k, teams, i);
    PhaseSeed(k, teams, j);
    assert order[IndexOf(order, i)] != order[IndexOf(order, j)];
  }

  /** A team with a division appears in its division's ranking. */
  lemma {:induction false} InDivisionOrder(k: Comparator, teams: seq<SeedTeam>, i: nat)
    requires i < |teams| && Truthy(teams[i].team.division)
    ensures i in DivisionOrder(k, teams, teams[i].team.division.value)
  {
  }

  /** The seed the division phase writes for a team with a division is one
      more than the team's place in its division's ranking. */
  lemma {:induction false} PhaseSeed(k: Comparator, teams: seq<SeedTeam>, i: nat)
    requires DivisionComparable(k, teams)
    requires i < |teams| && Truthy(teams[i].team.division)
    ensures var order := DivisionOrder(k, teams, teams[i].team.division.value);
            i in order && DivisionPhase(k, teams)[i].divisionSeed == Some(1 + IndexOf(order, i))
  {
    var order := DivisionOrder(k, teams, teams[i].team.division.value);
    InDivisionOrder(k, teams, i);
    var seed := DivisionSeedOf(k, teams, i);
    assert seed == 1 + IndexOf(order, i);
    var r := DivisionPhase(k, teams);
    assert r[i] == teams[i].(divisionSeed := Some(seed));
  }

  /** In a sequence of positions whose wins never increase, a position with
      more wins stands earlier. */
  lemma {:induction false} EarlierByWins(teams: seq<SeedTeam>, s: seq<nat>, p: nat, q: nat)
    requires Positions(s, |teams|) && WinsDescending(teams, s)
    requires p < |s| && q < |s| && teams[s[p]].team.wins > teams[s[q]].team.wins
    ensures p < q
  {
  }

  /** A comparison that looks at wins first ranks a division by wins. */
  lemma {:induction false} DivisionOrderDescending(k: Comparator, teams: seq<SeedTeam>, d: string)
    requires WinsFirst(k)
    ensures WinsDescending(teams, DivisionOrder(k, teams, d))
  {
    SortByDescending(k, teams, Members(teams, d, |teams|));
  }

  /** Within a division, more wins gives a smaller division seed. */
  lemma {:induction false} DivisionSeedsFollowWins(k: Comparator, teams: seq<SeedTeam>, i: nat, j: nat)
    requires DivisionComparable(k, teams) && WinsFirst(k)
    requires i < |teams| && j < |teams|
    requires Truthy(teams[i].team.division) && teams[i].team.division == teams[j].team.division
    requires teams[i].team.wins > teams[j].team.wins
    ensures DivisionPhase(k, teams)[i].divisionSeed.value < DivisionPhase(k, teams)[j].divisionSeed.value
  {
    var order := DivisionOrder(k, teams, teams[i].team.division.value);
    PhaseSeed(k, teams, i);
    PhaseSeed(k, teams, j);
    DivisionOrderDescending(k, teams, teams[i].team.division.value);
    EarlierByWins(teams, order, IndexOf(order, i), IndexOf(order, j));
  }

  /** No comparison the league phase makes raises: any two teams compare. */
  ghost predicate LeagueComparable(k: Comparator, teams: seq<SeedTeam>)
  {
    forall i, j {:trigger Defined(k, teams[i], teams[j])} :: 0 <= i < |teams| && 0 <= j < |teams| && i != j ==>
      Defined(k, teams[i], teams[j])
  }

  /** The positions 0..n-1. */
  function Range(n: nat): (r: seq<nat>)
    ensures |r| == n && Positions(r, n) && Distinct(r)
    ensures forall i :: 0 <= i < n ==> r[i] == i
  {
    seq(n, i requires 0 <= i < n => i)
  }

  lemma {:induction false} RangeMembers(n: nat)
    ensures forall i :: 0 <= i < n ==> i in Range(n)
  {
    forall i | 0 <= i < n ensures i in Range(n) {
      assert Range(n)[i] == i;
    }
  }

  /** Every team once, best first. */
  function LeagueOrder(k: Comparator, teams: seq<SeedTeam>): (order: seq<nat>)
    ensures |order| == |teams| && Positions(order, |teams|) && Distinct(order)
    ensures forall i :: 0 <= i < |teams| ==> i in order
  {
    var all := Range(|teams|);
    RangeMembers(|teams|);
    SortByDistinct(k, teams, all);
    SortByMembers(k, teams, all);
    SortBy(k, teams, all)
  }

  /** Ranks every team and writes league seeds 1..N in ranking order. The
      result lists the teams in that order; nothing but the league seed changes. */
  function LeaguePhase(k: Comparator, teams: seq<SeedTeam>): (r: seq<SeedTeam>)
    requires LeagueComparable(k, teams)
    ensures |r| == |teams|
    ensures forall p :: 0 <= p < |r| ==> r[p].leagueSeed == Some(p + 1)
    ensures forall p :: 0 <= p < |r| ==>
              r[p] == teams[LeagueOrder(k, teams)[p]].(leagueSeed := Some(p + 1))
  {
    var order := LeagueOrder(k, teams);
    seq(|teams|, p requires 0 <= p < |teams| => teams[order[p]].(leagueSeed := Some(p + 1)))
  }

  /** The league phase reorders the teams without losing or repeating any:
      each input team appears at exactly one place of the result. */
  lemma {:induction false} LeaguePhasePermutes(k: Comparator, teams: seq<SeedTeam>, i: nat)
    requires LeagueComparable(k, teams) && i < |teams|
    ensures var order := LeagueOrder(k, teams);
            var p := IndexOf(order, i);
            && LeaguePhase(k, teams)[p] == teams[i].(leagueSeed := Some(p + 1))
            && forall q :: 0 <= q < |teams| && q != p ==> order[q] != i
  {
  }

  /** More wins gives a smaller league seed. */
  lemma {:induction false} LeagueSeedsFollowWins(k: Comparator, teams: seq<SeedTeam>, p: nat, q: nat)
    requires LeagueComparable(k, teams) && WinsFirst(k)
    requires p < |teams| && q < |teams|
    requires LeaguePhase(k, teams)[p].team.wins > LeaguePhase(k, teams)[q].team.wins
    ensures p < q
    ensures LeaguePhase(k, teams)[p].leagueSeed.value < LeaguePhase(k, teams)[q].leagueSeed.value
  {
    var order := LeagueOrder(k, teams);
    SortByDescending(k, teams, Range(|teams|));
    assert teams[order[p]].team.wins > teams[order[q]].team.wins;
    EarlierByWins(teams, order, p, q);
  }

  /** The teams of the seeding records, in list order. */
  function TeamsOf(teams: seq<SeedTeam>): (r: seq<Team.Team>)
    ensures |r| == |teams| && forall i :: 0 <= i < |teams| ==> r[i] == teams[i].team
  {
    seq(|teams|, i requires 0 <= i < |teams| => teams[i].team)
  }

  /** The teams at the given positions, in the order the positions are listed. */
  function TeamsAt(teams: seq<SeedTeam>, s: seq<nat>): (r: seq<Team.Team>)
    requires Positions(s, |teams|)
    ensures |r| == |s| && forall p :: 0 <= p < |s| ==> r[p] == teams[s[p]].team
  {
    seq(|s|, p requires 0 <= p < |s| => teams[s[p]].team)
  }

  lemma {:induction false} TeamsAtAppend(teams: seq<SeedTeam>, a: seq<nat>, b: seq<nat>)
    requires Positions(a, |teams|) && Positions(b, |teams|)
    ensures Positions(a + b, |teams|)
    ensures TeamsAt(teams, a + b) == TeamsAt(teams, a) + TeamsAt(teams, b)
  {
    var ab := a + b;
    forall p | 0 <= p < |ab| ensures ab[p] < |teams| {
      if p >= |a| {
        assert ab[p] == b[p - |a|];
      }
    }
  }

  /** Taking the same element out of two equal multisets leaves equal multisets. */
  lemma RemoveOne(a: seq<nat>, b1: seq<nat>, b2: seq<nat>, x: nat)
    requires |a| > 0 && a[0] == x && multiset(a) == multiset(b1 + [x] + b2)
    ensures multiset(a[1..]) == multiset(b1 + b2)
  {
    assert a == [x] + a[1..];
    assert multiset(a) == multiset{x} + multiset(a[1..]);
    assert multiset(b1 + [x] + b2) == multiset(b1) + multiset{x} + multiset(b2);
    assert multiset(b1 + b2) == multiset(b1) + multiset(b2);
    forall y ensures multiset(a[1..])[y] == multiset(b1 + b2)[y] {
      assert multiset(a)[y] == multiset{x}[y] + multiset(a[1..])[y];
    }
  }

  lemma PositionsParts(teams: seq<SeedTeam>, a: seq<nat>, b: seq<nat>, j: nat)
    requires Positions(a, |teams|) && Positions(b, |teams|) && |a| > 0 && j < |b|
    ensures Positions(a[1..], |teams|) && Positions(b[..j], |teams|) && Positions(b[j + 1..], |teams|)
  {
    var tail, after := a[1..], b[j + 1..];
    forall p | 0 <= p < |tail| ensures tail[p] < |teams| {
      assert tail[p] == a[p + 1];
    }
    forall p | 0 <= p < |after| ensures after[p] < |teams| {
      assert after[p] == b[j + 1 + p];
    }
  }

  /** Putting one more list of teams into both of two equal multisets keeps them equal. */
  lemma InsertBoth(tx: seq<Team.Team>, ta: seq<Team.Team>, tb1: seq<Team.Team>, tb2: seq<Team.Team>)
    requires multiset(ta) == multiset(tb1 + tb2)
    ensures multiset(tx + ta) == multiset((tb1 + tx) + tb2)
  {
    assert multiset(tb1 + tb2) == multiset(tb1) + multiset(tb2);
    assert multiset((tb1 + tx) + tb2) == multiset(tb1) + multiset(tx) + multiset(tb2);
  }

  /** Listing the same positions in another order lists the same teams. */
  lemma {:induction false} TeamsAtPermutes(teams: seq<SeedTeam>, a: seq<nat>, b: seq<nat>)
    requires Positions(a, |teams|) && Positions(b, |teams|) && multiset(a) == multiset(b)
    ensures multiset(TeamsAt(teams, a)) == multiset(TeamsAt(teams, b))
    decreases |a|
  {
    if |a| == 0 {
      assert |b| == |multiset(b)| == 0;
    } else {
      var x := a[0];
      assert x in multiset(a);
      var j := IndexOf(b, x);
      var b1, b2 := b[..j], b[j + 1..];
      assert b == (b1 + [x]) + b2;
      assert a == [x] + a[1..];
      RemoveOne(a, b1, b2, x);
      PositionsParts(teams, a, b, j);
      TeamsAtAppend(teams, b1, b2);
      TeamsAtPermutes(teams, a[1..], b1 + b2);
      TeamsAtAppend(teams, [x], a[1..]);
      TeamsAtAppend(teams, b1, [x]);
      TeamsAtAppend(teams, b1 + [x], b2);
      InsertBoth(TeamsAt(teams, [x]), TeamsAt(teams, a[1..]), TeamsAt(teams, b1), TeamsAt(teams, b2));
    }
  }

  /** Division seeds first, then league seeds computed from them: the result
      lists every team once, best first, with league seeds 1..N, and every team
      with a division carries a division seed. */
  function Engine(divisionBy: Comparator, leagueBy: Comparator, teams: seq<SeedTeam>): (r: seq<SeedTeam>)
    requires DivisionComparable(divisionBy, teams)
    requires LeagueComparable(leagueBy, DivisionPhase(divisionBy, teams))
    ensures |r| == |teams|
    ensures multiset(TeamsOf(r)) == multiset(TeamsOf(teams))
    ensures forall p :: 0 <= p < |r| ==> r[p].leagueSeed == Some(p + 1)
    ensures forall p :: 0 <= p < |r| && Truthy(r[p].team.division) ==> r[p].divisionSeed.Some?
  {
    var seeded := DivisionPhase(divisionBy, teams);
    var r := LeaguePhase(leagueBy, seeded);
    assert forall p :: 0 <= p < |r| ==> r[p].team == seeded[LeagueOrder(leagueBy, seeded)[p]].team;
    EngineKeepsTeams(leagueBy, teams, seeded, r);
    r
  }

  /** The league phase over the division-seeded teams lists the input teams, each once. */
  lemma {:induction false} EngineKeepsTeams(leagueBy: Comparator, teams: seq<SeedTeam>, seeded: seq<SeedTeam>, r: seq<SeedTeam>)
    requires |seeded| == |teams| && forall i :: 0 <= i < |teams| ==> seeded[i].team == teams[i].team
    requires |r| == |seeded|
    requires forall p :: 0 <= p < |r| ==> r[p].team == seeded[LeagueOrder(leagueBy, seeded)[p]].team
    ensures multiset(TeamsOf(r)) == multiset(TeamsOf(teams))
  {
    var n := |seeded|;
    var all := Range(n);
    var order := LeagueOrder(leagueBy, seeded);
    assert order == SortBy(leagueBy, seeded, all);
    SortByPermutes(leagueBy, seeded, all);
    TeamsAtPermutes(seeded, order, all);
    assert TeamsOf(r) == TeamsAt(seeded, order);
    assert TeamsAt(seeded, all) == TeamsOf(teams);
  }

  /** The criteria-chain engine of the LFL seeders. */
  function LFLEngine(teams: seq<SeedTeam>): (r: seq<SeedTeam>)
    requires DivisionComparable(Chain(LFLDivisionChain()), teams)
    requires LeagueComparable(Chain(LFLLeagueChain()), DivisionPhase(Chain(LFLDivisionChain()), teams))
    ensures |r| == |teams|
    ensures multiset(TeamsOf(r)) == multiset(TeamsOf(teams))
    ensures forall p :: 0 <= p < |r| ==> r[p].leagueSeed == Some(p + 1)
    ensures forall p :: 0 <= p < |r| && Truthy(r[p].team.division) ==> r[p].divisionSeed.Some?
  {
    Engine(Chain(LFLDivisionChain()), Chain(LFLLeagueChain()), teams)
  }

  /** The older calculator: the same two passes with its own comparisons. */
  function CalculatorEngine(teams: seq<SeedTeam>): (r: seq<SeedTeam>)
    requires DivisionComparable(CalculatorDivision, teams)
    requires LeagueComparable(CalculatorLeague, DivisionPhase(CalculatorDivision, teams))
    ensures |r| == |teams|
    ensures multiset(TeamsOf(r)) == multiset(TeamsOf(teams))
    ensures forall p :: 0 <= p < |r| ==> r[p].leagueSeed == Some(p + 1)
    ensures forall p :: 0 <= p < |r| && Truthy(r[p].team.division) ==> r[p].divisionSeed.Some?
  {
    Engine(CalculatorDivision, CalculatorLeague, teams)
  }

  /** Both division comparisons never raise: they read no seed. */
  lemma {:induction false} DivisionPassesNeverRaise(teams: seq<SeedTeam>)
    ensures DivisionComparable(Chain(LFLDivisionChain()), teams)
    ensures DivisionComparable(CalculatorDivision, teams)
  {
    forall i, j | 0 <= i < |teams| && 0 <= j < |teams| && i != j
      ensures Defined(Chain(LFLDivisionChain()), teams[i], teams[j])
    {
      DivisionChainTotal(teams[i], teams[j]);
    }
  }

  /** When every team has a division, the division pass seeds them all, so
      no comparison of the LFL league chain raises. */
  lemma {:induction false} LFLLeagueRuns(teams: seq<SeedTeam>)
    requires forall i :: 0 <= i < |teams| ==> Truthy(teams[i].team.division)
    ensures DivisionComparable(Chain(LFLDivisionChain()), teams)
    ensures LeagueComparable(Chain(LFLLeagueChain()), DivisionPhase(Chain(LFLDivisionChain()), teams))
  {
    DivisionPassesNeverRaise(teams);
    var seeded := DivisionPhase(Chain(LFLDivisionChain()), teams);
    forall i, j | 0 <= i < |seeded| && 0 <= j < |seeded| && i != j
      ensures Defined(Chain(LFLLeagueChain()), seeded[i], seeded[j])
    {
      LeagueChainTotal(seeded[i], seeded[j]);
    }
  }

  /** When every team has a division, no league comparison of the older
      calculator raises either. */
  lemma {:induction false} CalculatorLeagueRuns(teams: seq<SeedTeam>)
    requires forall i :: 0 <= i < |teams| ==> Truthy(teams[i].team.division)
    ensures DivisionComparable(CalculatorDivision, teams)
    ensures LeagueComparable(CalculatorLeague, DivisionPhase(CalculatorDivision, teams))
  {
    DivisionPassesNeverRaise(teams);
    var seeded := DivisionPhase(CalculatorDivision, teams);
    forall i, j | 0 <= i < |seeded| && 0 <= j < |seeded| && i != j
      ensures Defined(CalculatorLeague, seeded[i], seeded[j])
    {
      assert seeded[i].divisionSeed.Some? && seeded[j].divisionSeed.Some?;
      CalculatorLeagueTotal(seeded[i], seeded[j]);
    }
  }

  /** The older calculator's league comparison raises only on an unset division seed. */
  lemma {:induction false} CalculatorLeagueTotal(a: SeedTeam, b: SeedTeam)
    requires a.divisionSeed.Some? && b.divisionSeed.Some?
    ensures Defined(CalculatorLeague, a, b)
  {
  }

  /** A team without a division keeps its unset division seed, so as soon as
      it ties on wins with another team both league comparisons raise. */
  lemma {:induction false} UndividedTieRaises(divisionBy: Comparator, teams: seq<SeedTeam>, i: nat, j: nat)
    requires DivisionComparable(divisionBy, teams)
    requires i < |teams| && j < |teams| && i != j
    requires !Truthy(teams[i].team.division) && teams[i].divisionSeed.None?
    requires teams[i].team.wins == teams[j].team.wins
    ensures !Defined(Chain(LFLLeagueChain()), DivisionPhase(divisionBy, teams)[i], DivisionPhase(divisionBy, teams)[j])
    ensures !Defined(CalculatorLeague, DivisionPhase(divisionBy, teams)[i], DivisionPhase(divisionBy, teams)[j])
    ensures !LeagueComparable(Chain(LFLLeagueChain()), DivisionPhase(divisionBy, teams))
    ensures !LeagueComparable(CalculatorLeague, DivisionPhase(divisionBy, teams))
  {
    var r := DivisionPhase(divisionBy, teams);
    var a, b := r[i], r[j];
    assert a == teams[i];
    var chain := LFLLeagueChain();
    assert chain[1..][1..] == [DivisionLeader, H2H, ExpectedWins];
    assert Compare(chain[1..][1..], a, b) == None;
    assert Compare(chain[1..], a, b) == None;
    assert Compare(chain, a, b) == None;
  }
}
