/** The weekly win probability read off a team's points rank: of the other
    n - 1 teams, the share it outscored that week. */
module RankProbability {

  /** (n - rank) / (n - 1), as FantasyLeague.py computes it with n the number of teams. */
  function WinProb(n: nat, rank: int): (p: real)
    requires n >= 2
    ensures rank == 1 ==> p == 1.0
    ensures rank == n ==> p == 0.0
    ensures 1 <= rank <= n ==> 0.0 <= p <= 1.0
  {
    ((n - rank) as real) / ((n - 1) as real)
  }

  /** (12 - rank) / 11: the same mapping with the league size fixed at twelve,
      as src/Classes/Team.py computes it. */
  function TeamWinProb(rank: int): (p: real)
    ensures p == WinProb(12, rank)
    ensures 1 <= rank <= 12 ==> 0.0 <= p <= 1.0
  {
    ((12 - rank) as real) / 11.0
  }

  /** A better (smaller) rank gives a strictly larger probability. */
  lemma {:induction false} WinProbDecreasing(n: nat, better: int, worse: int)
    requires n >= 2 && better < worse
    ensures WinProb(n, better) > WinProb(n, worse)
  {
    DividePositive((n - better) as real, (n - worse) as real, (n - 1) as real);
  }

  /** The probability of losing is the share of the other teams that outscored it. */
  lemma {:induction false} LossProb(n: nat, rank: int)
    requires n >= 2
    ensures 1.0 - WinProb(n, rank) == ((rank - 1) as real) / ((n - 1) as real)
  {
    var d := (n - 1) as real;
    AddQuotients((n - rank) as real, (rank - 1) as real, d);
    assert ((n - rank) as real) + ((rank - 1) as real) == d;
    assert d / d == 1.0;
  }

  lemma {:induction false} AddQuotients(a: real, b: real, d: real)
    requires d > 0.0
    ensures a / d + b / d == (a + b) / d
  {
  }

  lemma {:induction false} DividePositive(a: real, b: real, d: real)
    requires a > b && d > 0.0
    ensures a / d > b / d
  {
  }
}
