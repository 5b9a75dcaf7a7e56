/** The comparisons of src/Classes/SeedCalculator.py, the older seeder with
    its tiebreakers written out inline rather than as a criteria chain. */
module SeedCalculator {
  import opened Wrappers
  import opened SeedCriteria

  /** Python's order on (wins, losses) pairs: by wins, then by losses. */
  function TupleOrder(x: (nat, nat), y: (nat, nat)): (r: int)
    ensures r == 1 <==> x.0 > y.0 || (x.0 == y.0 && x.1 > y.1)
    ensures r == -1 <==> x.0 < y.0 || (x.0 == y.0 && x.1 < y.1)
    ensures r == 0 <==> x == y
  {
    if x.0 != y.0 then (if x.0 > y.0 then 1 else -1)
    else if x.1 > y.1 then 1 else if x.1 < y.1 then -1 else 0
  }

  /** Division comparison: wins, then head-to-head, then the division records
      as pairs, then expected wins. It reads no seed, so it never raises. */
  function DivisionComp(a: SeedTeam, b: SeedTeam): (r: int)
    ensures -1 <= r <= 1
  {
    if a.team.wins > b.team.wins then 1
    else if a.team.wins < b.team.wins then -1
    else
      var h := H2hRecord(a, b);
      if h > 0.5 then 1
      else if 0.0 <= h < 0.5 then -1
      else
        var record := TupleOrder(a.divisionRecord, b.divisionRecord);
        if record != 0 then record
        else Sign(a.expectedWins, b.expectedWins)
  }

  /** The division comparison ties only when the teams tie on wins, on
      head-to-head (one half or no history) and on both division record
      components and expected wins. */
  lemma {:induction false} DivisionCompTies(a: SeedTeam, b: SeedTeam)
    ensures DivisionComp(a, b) == 0 <==>
            && a.team.wins == b.team.wins
            && (H2hRecord(a, b) == 0.5 || H2hRecord(a, b) < 0.0)
            && a.divisionRecord == b.divisionRecord
            && a.expectedWins == b.expectedWins
  {
  }

  /** With consistent head-to-head records, swapping the teams swaps the verdict. */
  lemma {:induction false} DivisionCompAntisymmetric(a: SeedTeam, b: SeedTeam)
    requires H2hConsistent(a, b)
    ensures DivisionComp(a, b) == -DivisionComp(b, a)
  {
  }

  /** The pair order ranks a record with more losses above one with fewer at
      equal wins, where the win percentage of the criteria chain ranks it below. */
  lemma {:induction false} PairOrderRewardsLosses(a: SeedTeam, b: SeedTeam)
    requires a.team.wins == b.team.wins && b.team.rosterId !in a.h2h
    requires a.divisionRecord == (3, 1) && b.divisionRecord == (3, 0)
    ensures DivisionComp(a, b) == 1
    ensures Calculate(DivisionRecord, a, b) == Some(-1)
  {
    assert DivisionPercentage(a) == 3.0 / 4.0;
    assert DivisionPercentage(b) == 3.0 / 3.0;
  }

  /** League comparison: wins, then division seed (lower is better) whatever
      the teams' divisions, then head-to-head, then expected wins. Reading a
      seed the division phase never wrote raises: None. */
  function LeagueComp(a: SeedTeam, b: SeedTeam): (r: Option<int>)
    ensures r.None? <==> a.team.wins == b.team.wins && (a.divisionSeed.None? || b.divisionSeed.None?)
  {
    if a.team.wins > b.team.wins then Some(1)
    else if a.team.wins < b.team.wins then Some(-1)
    else if a.divisionSeed.None? || b.divisionSeed.None? then None
    else if a.divisionSeed.value < b.divisionSeed.value then Some(1)
    else if a.divisionSeed.value > b.divisionSeed.value then Some(-1)
    else
      var h := H2hRecord(a, b);
      if h > 0.5 then Some(1)
      else if 0.0 <= h < 0.5 then Some(-1)
      else Some(Sign(a.expectedWins, b.expectedWins))
  }

  /** The league comparison is the criteria chain record, division seed,
      head-to-head, expected wins. */
  lemma {:induction false} LeagueCompIsChain(a: SeedTeam, b: SeedTeam)
    ensures LeagueComp(a, b) == Compare([Record, DivisionSeed, H2H, ExpectedWins], a, b)
  {
    var c3 := [ExpectedWins];
    assert c3[1..] == [];
    assert Compare(c3, a, b) == Calculate(ExpectedWins, a, b);
    var c2 := [H2H, ExpectedWins];
    assert c2[1..] == c3;
    assert Compare(c2, a, b) == (if Calculate(H2H, a, b).value != 0 then Calculate(H2H, a, b) else Compare(c3, a, b));
    var c1 := [DivisionSeed, H2H, ExpectedWins];
    assert c1[1..] == c2;
    assert Compare(c1, a, b) == (if Calculate(DivisionSeed, a, b).None? then None
                                 else if Calculate(DivisionSeed, a, b).value != 0 then Calculate(DivisionSeed, a, b)
                                 else Compare(c2, a, b));
    var c0 := [Record, DivisionSeed, H2H, ExpectedWins];
    assert c0[1..] == c1;
  }

  /** Unlike the same-division rule of the criteria chain, the lower division
      seed wins a tie on wins even between teams of different divisions. */
  lemma {:induction false} LeagueCompAcrossDivisions(a: SeedTeam, b: SeedTeam)
    requires a.team.wins == b.team.wins && a.team.division != b.team.division
    requires a.divisionSeed == Some(1) && b.divisionSeed == Some(2)
    ensures LeagueComp(a, b) == Some(1)
    ensures Calculate(SameDivision, a, b) == Some(0)
  {
  }
}
