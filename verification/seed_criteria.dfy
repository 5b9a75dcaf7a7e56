/** The seeding criteria of src/Classes/SeedEngine.py: pairwise comparisons
    answering 1 (the first team is better), -1 (the second is) or 0 (tied),
    and the chain that asks them in order until one is not tied. */
module SeedCriteria {
  import opened Wrappers
  import Team

  /** A team as the seeders see it. Besides the season record it carries the
      head-to-head fractions (keyed by opponent roster id), the division
      record (wins, losses) and the expected wins that the criteria read,
      and the two seeds the seeders write. A seed never written is None:
      reading it raises an AttributeError. */
  datatype SeedTeam = SeedTeam(
    team: Team.Team,
    h2h: map<int, real>,
    divisionRecord: (nat, nat),
    expectedWins: real,
    divisionSeed: Option<nat>,
    leagueSeed: Option<nat>)

  /** The share of its games against b that a won, -1 when they never met. */
  function H2hRecord(a: SeedTeam, b: SeedTeam): real
  {
    if b.team.rosterId in a.h2h then a.h2h[b.team.rosterId] else -1.0
  }

  /** Division win percentage; a team without division games has 0. */
  function DivisionPercentage(t: SeedTeam): (p: real)
    ensures t.divisionRecord.0 + t.divisionRecord.1 == 0 ==> p == 0.0
    ensures 0.0 <= p <= 1.0
  {
    var (w, l) := t.divisionRecord;
    if w + l > 0 then (w as real) / ((w + l) as real) else 0.0
  }

  /** 1 when x is larger, -1 when smaller, 0 when equal. */
  function Sign(x: real, y: real): (r: int)
    ensures r == 1 <==> x > y
    ensures r == -1 <==> x < y
    ensures r == 0 <==> x == y
  {
    if x > y then 1 else if x < y then -1 else 0
  }

  /** The criteria classes. */
  datatype Criterion =
    | Record          // more wins is better
    | H2H             // a head-to-head share above one half is better
    | DivisionRecord  // a higher division win percentage is better
    | ExpectedWins    // more expected wins is better
    | DivisionSeed    // a lower division seed is better
    | SameDivision    // a lower division seed is better, within one division only
    | DivisionLeader  // a division winner beats a team that is not one

  /** The criterion reads a division seed of a or b: these are the comparisons
      that raise when the division phase has not seeded both teams. */
  predicate ReadsSeeds(c: Criterion, a: SeedTeam, b: SeedTeam)
  {
    c == DivisionSeed || c == DivisionLeader || (c == SameDivision && a.team.division == b.team.division)
  }

  /** A seed compared with a lower-is-better rule. */
  function SeedOrder(x: nat, y: nat): int
  {
    if x < y then 1 else if x > y then -1 else 0
  }

  /** One criterion applied to a and b; None when it reads a seed that was never written. */
  function Calculate(c: Criterion, a: SeedTeam, b: SeedTeam): (r: Option<int>)
    ensures r.None? <==> ReadsSeeds(c, a, b) && (a.divisionSeed.None? || b.divisionSeed.None?)
    ensures r.Some? ==> -1 <= r.value <= 1
  {
    match c
    case Record => Some(Sign(a.team.wins as real, b.team.wins as real))
    case H2H =>
      var h := H2hRecord(a, b);
      Some(if h > 0.5 then 1 else if 0.0 <= h < 0.5 then -1 else 0)
    case DivisionRecord => Some(Sign(DivisionPercentage(a), DivisionPercentage(b)))
    case ExpectedWins => Some(Sign(a.expectedWins, b.expectedWins))
    case DivisionSeed =>
      if a.divisionSeed.None? || b.divisionSeed.None? then None
      else Some(SeedOrder(a.divisionSeed.value, b.divisionSeed.value))
    case SameDivision =>
      if a.team.division != b.team.division then Some(0)
      else if a.divisionSeed.None? || b.divisionSeed.None? then None
      else Some(SeedOrder(a.divisionSeed.value, b.divisionSeed.value))
    case DivisionLeader =>
      if a.divisionSeed.None? || b.divisionSeed.None? then None
      else
        var lead1 := a.divisionSeed.value == 1;
        var lead2 := b.divisionSeed.value == 1;
        Some(if lead1 && !lead2 then 1 else if !lead1 && lead2 then -1 else 0)
  }

  /** The opposite verdict; an exception stays an exception. */
  function Negate(r: Option<int>): Option<int>
  {
    match r
    case None => None
    case Some(x) => Some(-x)
  }

  /** Every criterion except head-to-head is antisymmetric: swapping the teams
      swaps the verdict. */
  lemma {:induction false} CriteriaAntisymmetric(c: Criterion, a: SeedTeam, b: SeedTeam)
    requires c != H2H
    ensures Calculate(c, a, b) == Negate(Calculate(c, b, a))
  {
  }

  /** The head-to-head records of a and b agree: both without history, or
      shares of the same games that add up to one. */
  ghost predicate H2hConsistent(a: SeedTeam, b: SeedTeam)
  {
    var x := H2hRecord(a, b);
    var y := H2hRecord(b, a);
    (x == -1.0 && y == -1.0) || (0.0 <= x <= 1.0 && x + y == 1.0)
  }

  /** Head-to-head answers 1 exactly above one half and -1 exactly on [0, 1/2);
      one half and the no-history sentinel are ties, not losses. */
  lemma {:induction false} H2HVerdicts(a: SeedTeam, b: SeedTeam)
    ensures var h := H2hRecord(a, b);
            && (Calculate(H2H, a, b) == Some(1) <==> h > 0.5)
            && (Calculate(H2H, a, b) == Some(-1) <==> 0.0 <= h < 0.5)
            && (Calculate(H2H, a, b) == Some(0) <==> h == 0.5 || h < 0.0)
            && (b.team.rosterId !in a.h2h ==> Calculate(H2H, a, b) == Some(0))
  {
  }

  /** With consistent records, head-to-head is antisymmetric too. */
  lemma {:induction false} H2HAntisymmetric(a: SeedTeam, b: SeedTeam)
    requires H2hConsistent(a, b)
    ensures Calculate(H2H, a, b) == Negate(Calculate(H2H, b, a))
  {
  }

  /** The division record compares win percentages, whatever the number of games. */
  lemma {:induction false} DivisionRecordVerdicts(a: SeedTeam, b: SeedTeam)
    ensures Calculate(DivisionRecord, a, b) == Some(1) <==> DivisionPercentage(a) > DivisionPercentage(b)
    ensures Calculate(DivisionRecord, a, b) == Some(-1) <==> DivisionPercentage(a) < DivisionPercentage(b)
    ensures a.divisionRecord == (0, 0) && b.divisionRecord.0 > 0 ==> Calculate(DivisionRecord, a, b) == Some(-1)
  {
    if a.divisionRecord == (0, 0) && b.divisionRecord.0 > 0 {
      var (w, l) := b.divisionRecord;
      assert DivisionPercentage(b) == (w as real) / ((w + l) as real);
    }
  }

  /** Teams of different divisions tie on the same-division rule; within a
      division the lower seed wins. */
  lemma {:induction false} SameDivisionVerdicts(a: SeedTeam, b: SeedTeam)
    ensures a.team.division != b.team.division ==> Calculate(SameDivision, a, b) == Some(0)
    ensures a.team.division == b.team.division && a.divisionSeed.Some? && b.divisionSeed.Some? ==>
              (Calculate(SameDivision, a, b) == Some(1) <==> a.divisionSeed.value < b.divisionSeed.value)
  {
  }

  /** With both seeds written, the leader rule decides exactly when one team,
      and only one, is first in its division. */
  lemma {:induction false} DivisionLeaderVerdicts(a: SeedTeam, b: SeedTeam)
    requires a.divisionSeed.Some? && b.divisionSeed.Some?
    ensures Calculate(DivisionLeader, a, b) != Some(0) <==>
            (a.divisionSeed.value == 1) != (b.divisionSeed.value == 1)
    ensures Calculate(DivisionLeader, a, b) == Some(1) <==>
            a.divisionSeed.value == 1 && b.divisionSeed.value != 1
  {
  }

  /** Asks the criteria in order and returns the first verdict that is not a
      tie; 0 when every criterion ties (and for an empty chain). */
  function Compare(chain: seq<Criterion>, a: SeedTeam, b: SeedTeam): (r: Option<int>)
    ensures r.Some? ==> -1 <= r.value <= 1
  {
    if |chain| == 0 then Some(0)
    else
      match Calculate(chain[0], a, b)
      case None => None
      case Some(x) => if x != 0 then Some(x) else Compare(chain[1..], a, b)
  }

  /** The chain's verdict is the verdict of the first criterion that does not tie. */
  lemma {:induction false} CompareFirstDecisive(chain: seq<Criterion>, a: SeedTeam, b: SeedTeam, i: nat)
    requires i < |chain|
    requires forall j :: 0 <= j < i ==> Calculate(chain[j], a, b) == Some(0)
    requires Calculate(chain[i], a, b).Some? && Calculate(chain[i], a, b).value != 0
    ensures Compare(chain, a, b) == Calculate(chain[i], a, b)
  {
    if i > 0 {
      CompareFirstDecisive(chain[1..], a, b, i - 1);
    }
  }

  /** The chain ties exactly when every criterion ties. */
  lemma {:induction false} CompareTies(chain: seq<Criterion>, a: SeedTeam, b: SeedTeam)
    ensures Compare(chain, a, b) == Some(0) <==> forall j :: 0 <= j < |chain| ==> Calculate(chain[j], a, b) == Some(0)
  {
    if |chain| > 0 {
      CompareTies(chain[1..], a, b);
      if Calculate(chain[0], a, b) == Some(0) {
        assert forall j :: 1 <= j < |chain| ==> chain[j] == chain[1..][j - 1];
      }
    }
  }

  /** A chain of antisymmetric criteria is antisymmetric. */
  lemma {:induction false} CompareAntisymmetric(chain: seq<Criterion>, a: SeedTeam, b: SeedTeam)
    requires H2H in chain ==> H2hConsistent(a, b)
    ensures Compare(chain, a, b) == Negate(Compare(chain, b, a))
  {
    if |chain| > 0 {
      if chain[0] == H2H {
        H2HAntisymmetric(a, b);
      } else {
        CriteriaAntisymmetric(chain[0], a, b);
      }
      assert H2H in chain[1..] ==> H2H in chain;
      CompareAntisymmetric(chain[1..], a, b);
    }
  }

  /** When Record leads the chain, more wins decides the comparison. */
  lemma {:induction false} RecordFirst(chain: seq<Criterion>, a: SeedTeam, b: SeedTeam)
    requires |chain| > 0 && chain[0] == Record
    ensures a.team.wins > b.team.wins ==> Compare(chain, a, b) == Some(1)
    ensures a.team.wins < b.team.wins ==> Compare(chain, a, b) == Some(-1)
  {
  }

  /** The LFL division tiebreakers: record, head-to-head, division record, expected wins. */
  function LFLDivisionChain(): (chain: seq<Criterion>)
    ensures |chain| == 4 && chain[0] == Record
  {
    [Record, H2H, DivisionRecord, ExpectedWins]
  }

  /** The LFL league tiebreakers: record, same-division seed, division leader,
      head-to-head, expected wins. */
  function LFLLeagueChain(): (chain: seq<Criterion>)
    ensures |chain| == 5 && chain[0] == Record
  {
    [Record, SameDivision, DivisionLeader, H2H, ExpectedWins]
  }

  /** A chain raises only through a criterion that reads a missing seed. */
  lemma {:induction false} CompareTotal(chain: seq<Criterion>, a: SeedTeam, b: SeedTeam)
    requires forall j :: 0 <= j < |chain| ==> Calculate(chain[j], a, b).Some?
    ensures Compare(chain, a, b).Some?
  {
    if |chain| > 0 {
      assert forall j :: 1 <= j < |chain| ==> chain[j] == chain[1..][j - 1];
      CompareTotal(chain[1..], a, b);
    }
  }

  /** The division chain never reads a seed, so it never raises. */
  lemma {:induction false} DivisionChainTotal(a: SeedTeam, b: SeedTeam)
    ensures Compare(LFLDivisionChain(), a, b).Some?
  {
    CompareTotal(LFLDivisionChain(), a, b);
  }

  /** The league chain raises only when a seed is missing. */
  lemma {:induction false} LeagueChainTotal(a: SeedTeam, b: SeedTeam)
    requires a.divisionSeed.Some? && b.divisionSeed.Some?
    ensures Compare(LFLLeagueChain(), a, b).Some?
  {
    CompareTotal(LFLLeagueChain(), a, b);
  }
}
