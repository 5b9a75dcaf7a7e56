/** The win-count distribution of a season: given weekly win probabilities
    p[0..W), every subset of weeks is a scenario whose mass
    Π p[i] (weeks won) · Π (1 - p[i]) (weeks lost) is added to the bucket
    indexed by the number of weeks won. The result is the Poisson-binomial
    distribution, which is also computed by convolving [1 - p, p] week by week. */
module WinDistribution {
  import opened RealSeq

  function Pow2(n: nat): nat
  {
    if n == 0 then 1 else 2 * Pow2(n - 1)
  }

  /** A scenario lists the week indices it wins, each once, in ascending order. */
  predicate Increasing(s: seq<nat>)
  {
    forall i, j :: 0 <= i < j < |s| ==> s[i] < s[j]
  }

  predicate Below(s: seq<nat>, w: nat)
  {
    forall i :: 0 <= i < |s| ==> s[i] < w
  }

  /** Every scenario with week x added at the end. */
  function WithWeek(ss: seq<seq<nat>>, x: nat): (r: seq<seq<nat>>)
    ensures |r| == |ss|
    ensures forall i :: 0 <= i < |ss| ==> r[i] == ss[i] + [x]
  {
    seq(|ss|, i requires 0 <= i < |ss| => ss[i] + [x])
  }

  /** The subsets of the weeks 0..w-1: those without week w-1, then those with it. */
  function Scenarios(w: nat): (ss: seq<seq<nat>>)
    ensures |ss| > 0
  {
    if w == 0 then [[]]
    else
      var prev := Scenarios(w - 1);
      prev + WithWeek(prev, w - 1)
  }

  /** Every scenario of w weeks lists at most w weeks, all below w. */
  ghost predicate AllBelow(scs: seq<seq<nat>>, w: nat)
  {
    forall i :: 0 <= i < |scs| ==> Below(scs[i], w) && |scs[i]| <= w
  }

  lemma {:induction false} ScenariosBelow(w: nat)
    ensures AllBelow(Scenarios(w), w)
  {
    if w > 0 {
      ScenariosBelow(w - 1);
      var prev := Scenarios(w - 1);
      var ext := WithWeek(prev, w - 1);
      assert Scenarios(w) == prev + ext;
      var all := prev + ext;
      forall i | 0 <= i < |all|
        ensures Below(all[i], w) && |all[i]| <= w
      {
        if i < |prev| {
          assert all[i] == prev[i];
        } else {
          assert all[i] == prev[i - |prev|] + [w - 1];
          assert Below(prev[i - |prev|], w - 1);
        }
      }
    }
  }

  lemma {:induction false} ScenariosSplit(w: nat)
    ensures Scenarios(w + 1) == Scenarios(w) + WithWeek(Scenarios(w), w)
  {
  }

  lemma {:induction false} ScenariosIncreasing(w: nat)
    ensures forall i :: 0 <= i < |Scenarios(w)| ==> Increasing(Scenarios(w)[i])
  {
    if w > 0 {
      ScenariosIncreasing(w - 1);
      ScenariosBelow(w - 1);
      var prev := Scenarios(w - 1);
      forall i | 0 <= i < |prev|
        ensures Increasing(prev[i] + [w - 1])
      {
        assert Below(prev[i], w - 1);
      }
    }
  }

  /** Every ascending list of weeks below w is one of the scenarios. */
  lemma {:induction false} EverySubsetIsAScenario(w: nat, s: seq<nat>)
    requires Increasing(s) && Below(s, w)
    ensures s in Scenarios(w)
  {
    if w == 0 {
      assert s == [];
    } else if |s| > 0 && s[|s| - 1] == w - 1 {
      var init := s[..|s| - 1];
      assert Below(init, w - 1);
      EverySubsetIsAScenario(w - 1, init);
      assert s == init + [w - 1];
      WinnerIsAScenario(w - 1, init);
    } else {
      assert Below(s, w - 1);
      EverySubsetIsAScenario(w - 1, s);
      LoserIsAScenario(w - 1, s);
    }
  }

  /** A scenario of w weeks that also wins week w is a scenario of w + 1 weeks. */
  lemma {:induction false} WinnerIsAScenario(w: nat, init: seq<nat>)
    requires init in Scenarios(w)
    ensures init + [w] in Scenarios(w + 1)
  {
    var prev := Scenarios(w);
    var k :| 0 <= k < |prev| && prev[k] == init;
    var ext := WithWeek(prev, w);
    assert ext[k] == init + [w];
    ScenariosSplit(w);
    assert Scenarios(w + 1)[|prev| + k] == init + [w];
  }

  /** A scenario of w weeks that loses week w is a scenario of w + 1 weeks. */
  lemma {:induction false} LoserIsAScenario(w: nat, s: seq<nat>)
    requires s in Scenarios(w)
    ensures s in Scenarios(w + 1)
  {
    ScenariosSplit(w);
    var k :| 0 <= k < |Scenarios(w)| && Scenarios(w)[k] == s;
    assert Scenarios(w + 1)[k] == s;
  }

  /** There are 2^w scenarios. */
  lemma {:induction false} ScenariosCount(w: nat)
    ensures |Scenarios(w)| == Pow2(w)
  {
    if w > 0 {
      ScenariosCount(w - 1);
    }
  }

  /** No scenario is listed twice. */
  lemma {:induction false} ScenariosDistinct(w: nat)
    ensures forall i, j :: 0 <= i < j < |Scenarios(w)| ==> Scenarios(w)[i] != Scenarios(w)[j]
  {
    if w > 0 {
      ScenariosDistinct(w - 1);
      var prev := Scenarios(w - 1);
      var all := Scenarios(w);
      forall i, j | 0 <= i < j < |all|
        ensures all[i] != all[j]
      {
        if j < |prev| {
          PrefixDistinct(prev, WithWeek(prev, w - 1), i, j);
        } else if i < |prev| {
          LoserIsNotWinner(w - 1, i, j - |prev|);
        } else {
          WinnersDistinct(w - 1, i - |prev|, j - |prev|);
        }
      }
    }
  }

  /** Two different entries of a prefix stay different after appending. */
  lemma {:induction false} PrefixDistinct(a: seq<seq<nat>>, b: seq<seq<nat>>, i: nat, j: nat)
    requires i < j < |a| && a[i] != a[j]
    ensures (a + b)[i] != (a + b)[j]
  {
  }

  /** A scenario that loses week w differs from every scenario that wins it. */
  lemma {:induction false} LoserIsNotWinner(w: nat, i: nat, j: nat)
    requires i < |Scenarios(w)| && j < |Scenarios(w)|
    ensures Scenarios(w + 1)[i] != Scenarios(w + 1)[|Scenarios(w)| + j]
  {
    ScenariosBelow(w);
    ScenariosSplit(w);
    var prev := Scenarios(w);
    var t := Scenarios(w + 1)[|prev| + j];
    assert t == prev[j] + [w];
    assert t[|t| - 1] == w;
    assert Below(prev[i], w);
  }

  /** Adding week w to two different scenarios keeps them different. */
  lemma {:induction false} WinnersDistinct(w: nat, i: nat, j: nat)
    requires i < j < |Scenarios(w)|
    requires Scenarios(w)[i] != Scenarios(w)[j]
    ensures Scenarios(w + 1)[|Scenarios(w)| + i] != Scenarios(w + 1)[|Scenarios(w)| + j]
  {
    ScenariosSplit(w);
    var prev := Scenarios(w);
    var a := Scenarios(w + 1)[|prev| + i];
    var b := Scenarios(w + 1)[|prev| + j];
    assert a == prev[i] + [w];
    assert b == prev[j] + [w];
    SnocDiffers(prev[i], prev[j], w);
  }

  /** Appending the same element keeps two sequences different. */
  lemma {:induction false} SnocDiffers<T>(a: seq<T>, b: seq<T>, x: T)
    requires a != b
    ensures a + [x] != b + [x]
  {
    assert (a + [x])[..|a|] == a;
    assert (b + [x])[..|b|] == b;
  }

  /** Product of p[idx] over the scenario's weeks, taken in scenario order. */
  function WinsProb(p: seq<real>, s: seq<nat>): real
    requires Below(s, |p|)
  {
    if |s| == 0 then 1.0 else WinsProb(p, s[..|s| - 1]) * p[s[|s| - 1]]
  }

  /** Product of 1 - p[idx] over the weeks idx < n that the scenario does not win. */
  function LossesProb(p: seq<real>, s: seq<nat>, n: nat): real
    requires n <= |p|
  {
    if n == 0 then 1.0
    else if n - 1 in s then LossesProb(p, s, n - 1)
    else LossesProb(p, s, n - 1) * (1.0 - p[n - 1])
  }

  /** The mass of one scenario, as the enumeration computes it. */
  function ScenarioProb(p: seq<real>, s: seq<nat>): real
    requires Below(s, |p|)
  {
    WinsProb(p, s) * LossesProb(p, s, |p|)
  }

  /** Probability of week k's outcome under scenario s. */
  function Outcome(p: seq<real>, s: seq<nat>, k: nat): real
    requires k < |p|
  {
    if k in s then p[k] else 1.0 - p[k]
  }

  /** Independent-trials probability of the outcomes of weeks 0..n-1 under scenario s. */
  function Mass(p: seq<real>, s: seq<nat>, n: nat): real
    requires n <= |p|
  {
    if n == 0 then 1.0 else Mass(p, s, n - 1) * Outcome(p, s, n - 1)
  }

  /** Product of p[k] over the weeks k < n in the scenario. */
  function WinsUpTo(p: seq<real>, s: seq<nat>, n: nat): real
    requires n <= |p|
  {
    if n == 0 then 1.0 else if n - 1 in s then WinsUpTo(p, s, n - 1) * p[n - 1] else WinsUpTo(p, s, n - 1)
  }

  lemma {:induction false} WinsUpToCongruent(p: seq<real>, s1: seq<nat>, s2: seq<nat>, n: nat)
    requires n <= |p|
    requires forall k :: 0 <= k < n ==> (k in s1 <==> k in s2)
    ensures WinsUpTo(p, s1, n) == WinsUpTo(p, s2, n)
  {
    if n > 0 {
      WinsUpToCongruent(p, s1, s2, n - 1);
      if n - 1 in s1 {
        MulEq(WinsUpTo(p, s1, n - 1), p[n - 1], WinsUpTo(p, s2, n - 1), p[n - 1]);
      }
    }
  }

  lemma {:induction false} WinsProbIsWinsUpTo(p: seq<real>, s: seq<nat>, n: nat)
    requires n <= |p| && Increasing(s) && Below(s, n)
    ensures WinsProb(p, s) == WinsUpTo(p, s, n)
  {
    if n == 0 {
      assert s == [];
    } else if |s| > 0 && s[|s| - 1] == n - 1 {
      var init := s[..|s| - 1];
      assert Below(init, n - 1);
      WinsProbIsWinsUpTo(p, init, n - 1);
      forall k | 0 <= k < n - 1
        ensures k in s <==> k in init
      {
        assert s == init + [n - 1];
      }
      WinsUpToCongruent(p, s, init, n - 1);
    } else {
      assert Below(s, n - 1);
      WinsProbIsWinsUpTo(p, s, n - 1);
    }
  }

  lemma {:induction false} WinsTimesLossesIsMass(p: seq<real>, s: seq<nat>, n: nat)
    requires n <= |p|
    ensures WinsUpTo(p, s, n) * LossesProb(p, s, n) == Mass(p, s, n)
  {
    if n > 0 {
      WinsTimesLossesIsMass(p, s, n - 1);
      if n - 1 in s {
        WonWeekFactor(p, s, n);
      } else {
        LostWeekFactor(p, s, n);
      }
    }
  }

  lemma {:induction false} WonWeekFactor(p: seq<real>, s: seq<nat>, n: nat)
    requires 0 < n <= |p| && n - 1 in s
    requires WinsUpTo(p, s, n - 1) * LossesProb(p, s, n - 1) == Mass(p, s, n - 1)
    ensures WinsUpTo(p, s, n) * LossesProb(p, s, n) == Mass(p, s, n)
  {
    var w := WinsUpTo(p, s, n - 1);
    var l := LossesProb(p, s, n - 1);
    var x := p[n - 1];
    assert Mass(p, s, n) == Mass(p, s, n - 1) * Outcome(p, s, n - 1);
    assert Outcome(p, s, n - 1) == x;
    assert WinsUpTo(p, s, n) == w * x;
    assert LossesProb(p, s, n) == l;
    WonStep(Mass(p, s, n), Mass(p, s, n - 1), w, l, x, WinsUpTo(p, s, n), LossesProb(p, s, n));
  }

  lemma {:induction false} WonStep(m: real, prev: real, w: real, l: real, x: real, wn: real, ln: real)
    requires prev == w * l && m == prev * x && wn == w * x && ln == l
    ensures wn * ln == m
  {
    Regroup(w, x, l);
  }

  lemma {:induction false} LostWeekFactor(p: seq<real>, s: seq<nat>, n: nat)
    requires 0 < n <= |p| && n - 1 !in s
    requires WinsUpTo(p, s, n - 1) * LossesProb(p, s, n - 1) == Mass(p, s, n - 1)
    ensures WinsUpTo(p, s, n) * LossesProb(p, s, n) == Mass(p, s, n)
  {
    var w := WinsUpTo(p, s, n - 1);
    var l := LossesProb(p, s, n - 1);
    var y := 1.0 - p[n - 1];
    assert Mass(p, s, n) == Mass(p, s, n - 1) * Outcome(p, s, n - 1);
    assert Outcome(p, s, n - 1) == y;
    assert WinsUpTo(p, s, n) == w;
    assert LossesProb(p, s, n) == l * y;
    LostStep(Mass(p, s, n), Mass(p, s, n - 1), w, l, y, WinsUpTo(p, s, n), LossesProb(p, s, n));
  }

  lemma {:induction false} LostStep(m: real, prev: real, w: real, l: real, y: real, wn: real, ln: real)
    requires prev == w * l && m == prev * y && wn == w && ln == l * y
    ensures wn * ln == m
  {
    Associate(w, l, y);
  }

  /** The enumeration's wins-then-losses product is the independent-trials mass. */
  lemma {:induction false} ScenarioProbIsMass(p: seq<real>, s: seq<nat>)
    requires Increasing(s) && Below(s, |p|)
    ensures ScenarioProb(p, s) == Mass(p, s, |p|)
  {
    WinsProbIsWinsUpTo(p, s, |p|);
    WinsTimesLossesIsMass(p, s, |p|);
  }


  /** Adds each scenario's mass into the bucket indexed by its number of wins. */
  function Tally(p: seq<real>, scs: seq<seq<nat>>): (d: seq<real>)
    requires AllBelow(scs, |p|)
    ensures |d| == |p| + 1
  {
    if |scs| == 0 then seq(|p| + 1, _ => 0.0)
    else
      var d := Tally(p, scs[..|scs| - 1]);
      var s := scs[|scs| - 1];
      d[|s| := d[|s|] + ScenarioProb(p, s)]
  }

  /** Tallying one more scenario adds its probability to the bucket of its size. */
  lemma {:induction false} TallyStep(p: seq<real>, scs: seq<seq<nat>>, i: nat)
    requires AllBelow(scs, |p|) && i < |scs|
    ensures AllBelow(scs[..i], |p|) && AllBelow(scs[..i + 1], |p|)
    ensures Tally(p, scs[..i + 1]) ==
            Tally(p, scs[..i])[|scs[i]| := Tally(p, scs[..i])[|scs[i]|] + ScenarioProb(p, scs[i])]
  {
    assert scs[..i + 1][..i] == scs[..i];
    assert scs[..i + 1][i] == scs[i];
  }

  /** The distribution of the number of wins over all 2^W scenarios. */
  function ProbNWins(p: seq<real>): (d: seq<real>)
    ensures |d| == |p| + 1
  {
    ScenariosBelow(|p|);
    Tally(p, Scenarios(|p|))
  }

  /** Total mass of the listed scenarios that win exactly k weeks. */
  function Bucket(p: seq<real>, scs: seq<seq<nat>>, k: nat): real
  {
    if |scs| == 0 then 0.0
    else
      var s := scs[|scs| - 1];
      Bucket(p, scs[..|scs| - 1], k) + (if |s| == k then Mass(p, s, |p|) else 0.0)
  }

  /** Each bucket of the tally holds exactly the mass of the scenarios of that size. */
  lemma {:induction false} TallyBucketsBySize(p: seq<real>, scs: seq<seq<nat>>, k: nat)
    requires AllBelow(scs, |p|)
    requires forall i :: 0 <= i < |scs| ==> Increasing(scs[i])
    requires k <= |p|
    ensures Tally(p, scs)[k] == Bucket(p, scs, k)
  {
    if |scs| > 0 {
      var s := scs[|scs| - 1];
      TallyBucketsBySize(p, scs[..|scs| - 1], k);
      ScenarioProbIsMass(p, s);
    }
  }

  lemma {:induction false} BucketAppend(p: seq<real>, a: seq<seq<nat>>, b: seq<seq<nat>>, k: nat)
    ensures Bucket(p, a + b, k) == Bucket(p, a, k) + Bucket(p, b, k)
  {
    if |b| == 0 {
      assert a + b == a;
    } else {
      assert (a + b)[..|a + b| - 1] == a + b[..|b| - 1];
      BucketAppend(p, a, b[..|b| - 1], k);
    }
  }

  lemma {:induction false} BucketBeyond(p: seq<real>, scs: seq<seq<nat>>, k: nat)
    requires forall i :: 0 <= i < |scs| ==> |scs[i]| < k
    ensures Bucket(p, scs, k) == 0.0
  {
    if |scs| > 0 {
      BucketBeyond(p, scs[..|scs| - 1], k);
    }
  }

  lemma {:induction false} MassCongruent(p1: seq<real>, s1: seq<nat>, p2: seq<real>, s2: seq<nat>, n: nat)
    requires n <= |p1| && n <= |p2|
    requires forall k :: 0 <= k < n ==> p1[k] == p2[k] && (k in s1 <==> k in s2)
    ensures Mass(p1, s1, n) == Mass(p2, s2, n)
  {
    if n > 0 {
      MassCongruent(p1, s1, p2, s2, n - 1);
      assert Outcome(p1, s1, n - 1) == Outcome(p2, s2, n - 1);
      MulEq(Mass(p1, s1, n - 1), Outcome(p1, s1, n - 1), Mass(p2, s2, n - 1), Outcome(p2, s2, n - 1));
    }
  }

  /** A scenario that does not win the appended week loses it. */
  lemma {:induction false} MassWithoutWeek(p: seq<real>, q: real, s: seq<nat>)
    requires Below(s, |p|)
    ensures Mass(p + [q], s, |p| + 1) == (1.0 - q) * Mass(p, s, |p|)
  {
    var p' := p + [q];
    MassCongruent(p', s, p, s, |p|);
    assert |p| !in s;
    MulEq(Mass(p', s, |p|), Outcome(p', s, |p|), Mass(p, s, |p|), 1.0 - q);
  }

  /** A scenario extended with the appended week wins it. */
  lemma {:induction false} MassWithWeek(p: seq<real>, q: real, s: seq<nat>)
    requires Below(s, |p|)
    ensures Mass(p + [q], s + [|p|], |p| + 1) == q * Mass(p, s, |p|)
  {
    var t := s + [|p|];
    forall j | 0 <= j < |p|
      ensures (p + [q])[j] == p[j] && (j in t <==> j in s)
    {
    }
    var p' := p + [q];
    MassCongruent(p', t, p, s, |p|);
    assert |p| in t;
    MulEq(Mass(p', t, |p|), Outcome(p', t, |p|), Mass(p, s, |p|), q);
  }

  /** Scenarios without the new last week lose it. */
  lemma {:induction false} BucketLoss(p: seq<real>, q: real, scs: seq<seq<nat>>, k: nat)
    requires AllBelow(scs, |p|)
    ensures Bucket(p + [q], scs, k) == (1.0 - q) * Bucket(p, scs, k)
  {
    if |scs| > 0 {
      BucketLoss(p, q, scs[..|scs| - 1], k);
      LastLoses(p, q, scs, k);
    }
  }

  lemma {:induction false} LastLoses(p: seq<real>, q: real, scs: seq<seq<nat>>, k: nat)
    requires |scs| > 0 && Below(scs[|scs| - 1], |p|)
    requires Bucket(p + [q], scs[..|scs| - 1], k) == (1.0 - q) * Bucket(p, scs[..|scs| - 1], k)
    ensures Bucket(p + [q], scs, k) == (1.0 - q) * Bucket(p, scs, k)
  {
    if |scs[|scs| - 1]| == k {
      LastLosesCounted(p, q, scs, k);
    } else {
      LastLosesSkipped(p, q, scs, k);
    }
  }

  lemma {:induction false} LastLosesSkipped(p: seq<real>, q: real, scs: seq<seq<nat>>, k: nat)
    requires |scs| > 0 && |scs[|scs| - 1]| != k
    requires Bucket(p + [q], scs[..|scs| - 1], k) == (1.0 - q) * Bucket(p, scs[..|scs| - 1], k)
    ensures Bucket(p + [q], scs, k) == (1.0 - q) * Bucket(p, scs, k)
  {
    BucketSkip(p + [q], scs, k);
    BucketSkip(p, scs, k);
    MulEq(1.0 - q, Bucket(p, scs, k), 1.0 - q, Bucket(p, scs[..|scs| - 1], k));
  }

  lemma {:induction false} LastLosesCounted(p: seq<real>, q: real, scs: seq<seq<nat>>, k: nat)
    requires |scs| > 0 && |scs[|scs| - 1]| == k && Below(scs[|scs| - 1], |p|)
    requires Bucket(p + [q], scs[..|scs| - 1], k) == (1.0 - q) * Bucket(p, scs[..|scs| - 1], k)
    ensures Bucket(p + [q], scs, k) == (1.0 - q) * Bucket(p, scs, k)
  {
    var s := scs[|scs| - 1];
    var init := scs[..|scs| - 1];
    var p' := p + [q];
    BucketLast(p', scs, k, |p| + 1);
    BucketLast(p, scs, k, |p|);
    MassWithoutWeek(p, q, s);
    LosesStep(Bucket(p', scs, k), Bucket(p', init, k), Mass(p', s, |p| + 1),
              Bucket(p, scs, k), Bucket(p, init, k), Mass(p, s, |p|), 1.0 - q);
  }

  /** A last scenario with k wins adds its mass over all n = |p| weeks to bucket k. */
  lemma {:induction false} BucketLast(p: seq<real>, scs: seq<seq<nat>>, k: nat, n: nat)
    requires |scs| > 0 && |scs[|scs| - 1]| == k && n == |p|
    ensures Bucket(p, scs, k) == Bucket(p, scs[..|scs| - 1], k) + Mass(p, scs[|scs| - 1], n)
  {
  }

  /** Scaling both the earlier bucket and the last scenario's mass by c scales their sum. */
  lemma {:induction false} LosesStep(total': real, before': real, mass': real, total: real, before: real, mass: real, c: real)
    requires total' == before' + mass' && total == before + mass
    requires before' == c * before && mass' == c * mass
    ensures total' == c * total
  {
    Distribute(c, before, mass);
  }

  /** A last scenario with another number of wins adds nothing to bucket k. */
  lemma {:induction false} BucketSkip(p: seq<real>, scs: seq<seq<nat>>, k: nat)
    requires |scs| > 0 && |scs[|scs| - 1]| != k
    ensures Bucket(p, scs, k) == Bucket(p, scs[..|scs| - 1], k)
  {
  }

  /** A last scenario with k wins adds its mass to bucket k. */
  lemma {:induction false} BucketCount(p: seq<real>, scs: seq<seq<nat>>, k: nat)
    requires |scs| > 0 && |scs[|scs| - 1]| == k
    ensures Bucket(p, scs, k) == Bucket(p, scs[..|scs| - 1], k) + Mass(p, scs[|scs| - 1], |p|)
  {
  }

  /** Scenarios extended with the new last week win it, and have one more win. */
  lemma {:induction false} BucketWin(p: seq<real>, q: real, scs: seq<seq<nat>>, k: nat)
    requires AllBelow(scs, |p|)
    ensures Bucket(p + [q], WithWeek(scs, |p|), k) == (if k == 0 then 0.0 else q * Bucket(p, scs, k - 1))
  {
    if |scs| > 0 {
      var ext := WithWeek(scs, |p|);
      var s := scs[|scs| - 1];
      var init := scs[..|scs| - 1];
      var p' := p + [q];
      var rest := Bucket(p', ext[..|ext| - 1], k);
      var last := if |s| + 1 == k then Mass(p', s + [|p|], |p'|) else 0.0;
      assert Bucket(p', ext, k) == rest + last by {
        assert ext[|ext| - 1] == s + [|p|];
      }
      assert rest == (if k == 0 then 0.0 else q * Bucket(p, init, k - 1)) by {
        assert ext[..|ext| - 1] == WithWeek(init, |p|);
        BucketWin(p, q, init, k);
      }
      if k > 0 {
        var b := Bucket(p, init, k - 1);
        var m := if |s| == k - 1 then Mass(p, s, |p|) else 0.0;
        assert last == q * m by {
          MassWithWeek(p, q, s);
        }
        assert Bucket(p, scs, k - 1) == b + m;
        Distribute(q, b, m);
      }
    }
  }

  /** One week of the convolution recurrence: d convolved with [1 - q, q]. */
  function Step(d: seq<real>, q: real): (r: seq<real>)
    ensures |r| == |d| + 1
  {
    Plus(Scale(d, 1.0 - q) + [0.0], [0.0] + Scale(d, q))
  }

  lemma {:induction false} StepAt(d: seq<real>, q: real, k: nat)
    requires k <= |d|
    ensures Step(d, q)[k] == (if k < |d| then (1.0 - q) * d[k] else 0.0) + (if k > 0 then q * d[k - 1] else 0.0)
  {
  }

  /** The O(W^2) dynamic-programming form of the distribution. */
  function Convolve(p: seq<real>): (d: seq<real>)
    ensures |d| == |p| + 1
  {
    if |p| == 0 then [1.0] else Step(Convolve(p[..|p| - 1]), p[|p| - 1])
  }

  /** Adding a week: the scenarios that lose it keep their bucket with weight 1 - q,
      those that win it move up one bucket with weight q. */
  lemma {:induction false} ConvolutionStep(p0: seq<real>, q: real, prev: seq<seq<nat>>, c: seq<real>, k: nat)
    requires AllBelow(prev, |p0|) && |c| == |p0| + 1 && k <= |p0| + 1
    requires k <= |p0| ==> Bucket(p0, prev, k) == c[k]
    requires 0 < k ==> Bucket(p0, prev, k - 1) == c[k - 1]
    ensures Bucket(p0 + [q], prev + WithWeek(prev, |p0|), k) == Step(c, q)[k]
  {
    BucketAppend(p0 + [q], prev, WithWeek(prev, |p0|), k);
    LoseHalf(p0, q, prev, c, k);
    WinHalf(p0, q, prev, c, k);
    StepAt(c, q, k);
  }

  lemma {:induction false} LoseHalf(p0: seq<real>, q: real, prev: seq<seq<nat>>, c: seq<real>, k: nat)
    requires AllBelow(prev, |p0|) && |c| == |p0| + 1
    requires k <= |p0| ==> Bucket(p0, prev, k) == c[k]
    ensures Bucket(p0 + [q], prev, k) == (if k < |c| then (1.0 - q) * c[k] else 0.0)
  {
    BucketLoss(p0, q, prev, k);
    if k <= |p0| {
      MulEq(1.0 - q, Bucket(p0, prev, k), 1.0 - q, c[k]);
    } else {
      BucketBeyond(p0, prev, k);
    }
  }

  lemma {:induction false} WinHalf(p0: seq<real>, q: real, prev: seq<seq<nat>>, c: seq<real>, k: nat)
    requires AllBelow(prev, |p0|) && |c| == |p0| + 1 && k <= |c|
    requires 0 < k ==> Bucket(p0, prev, k - 1) == c[k - 1]
    ensures Bucket(p0 + [q], WithWeek(prev, |p0|), k) == (if k > 0 then q * c[k - 1] else 0.0)
  {
    BucketWin(p0, q, prev, k);
    if k > 0 {
      MulEq(q, Bucket(p0, prev, k - 1), q, c[k - 1]);
    }
  }

  /** Bucket k of the enumeration over all scenarios is entry k of the convolution. */
  lemma {:induction false} ScenariosConvolve(p: seq<real>)
    ensures forall k :: 0 <= k <= |p| ==> Bucket(p, Scenarios(|p|), k) == Convolve(p)[k]
  {
    if |p| == 0 {
      assert Scenarios(0) == [[]];
      assert Scenarios(0)[..0] == [];
    } else {
      var w := |p| - 1;
      var p0 := p[..w];
      var q := p[w];
      assert p == p0 + [q];
      var prev := Scenarios(w);
      ScenariosConvolve(p0);
      ScenariosBelow(w);
      ScenariosSplit(w);
      forall k | 0 <= k <= |p|
        ensures Bucket(p, Scenarios(|p|), k) == Convolve(p)[k]
      {
        ConvolutionStep(p0, q, prev, Convolve(p0), k);
      }
    }
  }

  lemma {:induction false} ProbNWinsIsConvolution(p: seq<real>)
    ensures ProbNWins(p) == Convolve(p)
  {
    ScenariosIncreasing(|p|);
    ScenariosBelow(|p|);
    ScenariosConvolve(p);
    forall k | 0 <= k <= |p|
      ensures ProbNWins(p)[k] == Convolve(p)[k]
    {
      TallyBucketsBySize(p, Scenarios(|p|), k);
    }
  }

  /** One step of the convolution keeps the total mass. */
  lemma {:induction false} StepSum(d: seq<real>, q: real)
    ensures Sum(Step(d, q)) == Sum(d)
  {
    SumPlus(Scale(d, 1.0 - q) + [0.0], [0.0] + Scale(d, q));
    SumAppend(Scale(d, 1.0 - q), [0.0]);
    SumAppend([0.0], Scale(d, q));
    assert Sum([0.0]) == 0.0 + Sum([]);
    SumScale(d, 1.0 - q);
    SumScale(d, q);
    Complement(q, Sum(d));
  }

  lemma {:induction false} ConvolveSumsToOne(p: seq<real>)
    ensures Sum(Convolve(p)) == 1.0
  {
    if |p| == 0 {
      assert Sum([1.0]) == 1.0 + Sum([]);
    } else {
      ConvolveSumsToOne(p[..|p| - 1]);
      StepSum(Convolve(p[..|p| - 1]), p[|p| - 1]);
    }
  }

  ghost predicate Probabilities(p: seq<real>)
  {
    forall k :: 0 <= k < |p| ==> 0.0 <= p[k] <= 1.0
  }

  lemma {:induction false} StepNonNegative(d: seq<real>, q: real, k: nat)
    requires 0.0 <= q <= 1.0 && k <= |d|
    requires forall j :: 0 <= j < |d| ==> d[j] >= 0.0
    ensures Step(d, q)[k] >= 0.0
  {
    StepAt(d, q, k);
    if k < |d| {
      MulNonNegative(1.0 - q, d[k]);
    }
    if k > 0 {
      MulNonNegative(q, d[k - 1]);
    }
  }

  lemma {:induction false} ConvolveNonNegative(p: seq<real>)
    requires Probabilities(p)
    ensures forall k :: 0 <= k < |Convolve(p)| ==> Convolve(p)[k] >= 0.0
  {
    if |p| > 0 {
      var d := Convolve(p[..|p| - 1]);
      var q := p[|p| - 1];
      ConvolveNonNegative(p[..|p| - 1]);
      forall k | 0 <= k < |d| + 1
        ensures Step(d, q)[k] >= 0.0
      {
        StepNonNegative(d, q, k);
      }
    }
  }

  lemma {:induction false} LoseShareMean(d: seq<real>, q: real)
    ensures WeightedSum(Scale(d, 1.0 - q) + [0.0], 0) == (1.0 - q) * WeightedSum(d, 0)
  {
    WeightedTrailingZero(Scale(d, 1.0 - q), 0);
    WeightedScale(d, 1.0 - q, 0);
  }

  lemma {:induction false} WinShareMean(d: seq<real>, q: real)
    ensures WeightedSum([0.0] + Scale(d, q), 0) == q * WeightedSum(d, 0) + q * Sum(d)
  {
    WeightedLeadingZero(Scale(d, q));
    WeightedScale(d, q, 0);
    SumScale(d, q);
  }

  lemma {:induction false} StepMean(d: seq<real>, q: real)
    ensures WeightedSum(Step(d, q), 0) == WeightedSum(d, 0) + q * Sum(d)
  {
    WeightedPlus(Scale(d, 1.0 - q) + [0.0], [0.0] + Scale(d, q), 0);
    LoseShareMean(d, q);
    WinShareMean(d, q);
    Complement(q, WeightedSum(d, 0));
  }

  /** The first moment of the distribution is the sum of the weekly probabilities. */
  lemma {:induction false} ConvolveMean(p: seq<real>)
    ensures WeightedSum(Convolve(p), 0) == Sum(p)
  {
    if |p| == 0 {
      assert WeightedSum([1.0], 0) == 0.0 * 1.0 + WeightedSum([], 1);
    } else {
      var p0 := p[..|p| - 1];
      var q := p[|p| - 1];
      ConvolveMean(p0);
      ConvolveSumsToOne(p0);
      StepMean(Convolve(p0), q);
      assert p == p0 + [q];
      SumAppend(p0, [q]);
      assert Sum([q]) == q + Sum([]);
    }
  }

  /** Mass 1 at index `at`, 0 elsewhere. */
  function PointMass(n: nat, at: nat): (r: seq<real>)
    ensures |r| == n
  {
    seq(n, k => if k == at then 1.0 else 0.0)
  }

  lemma {:induction false} ConvolveCertainWins(n: nat)
    ensures Convolve(Constant(n, 1.0)) == PointMass(n + 1, n)
  {
    if n > 0 {
      var p := Constant(n, 1.0);
      assert p[..n - 1] == Constant(n - 1, 1.0);
      ConvolveCertainWins(n - 1);
      var d := Convolve(p[..n - 1]);
      forall k | 0 <= k <= n
        ensures Step(d, 1.0)[k] == PointMass(n + 1, n)[k]
      {
        StepAt(d, 1.0, k);
      }
    }
  }

  lemma {:induction false} ConvolveCertainLosses(n: nat)
    ensures Convolve(Constant(n, 0.0)) == PointMass(n + 1, 0)
  {
    if n > 0 {
      var p := Constant(n, 0.0);
      assert p[..n - 1] == Constant(n - 1, 0.0);
      ConvolveCertainLosses(n - 1);
      var d := Convolve(p[..n - 1]);
      forall k | 0 <= k <= n
        ensures Step(d, 0.0)[k] == PointMass(n + 1, 0)[k]
      {
        StepAt(d, 0.0, k);
      }
    }
  }

  /** The bucket masses add up to one. */
  lemma {:induction false} ProbNWinsSumsToOne(p: seq<real>)
    ensures Sum(ProbNWins(p)) == 1.0
  {
    ProbNWinsIsConvolution(p);
    ConvolveSumsToOne(p);
  }

  /** With every weekly probability in [0,1], no bucket is negative. */
  lemma {:induction false} ProbNWinsNonNegative(p: seq<real>)
    requires Probabilities(p)
    ensures forall k :: 0 <= k <= |p| ==> ProbNWins(p)[k] >= 0.0
  {
    ProbNWinsIsConvolution(p);
    ConvolveNonNegative(p);
  }

  /** Σ n·P(n) equals the sum of the weekly win probabilities. */
  lemma {:induction false} ProbNWinsMean(p: seq<real>)
    ensures WeightedSum(ProbNWins(p), 0) == Sum(p)
  {
    ProbNWinsIsConvolution(p);
    ConvolveMean(p);
  }

  /** Certain wins every week put all the mass on W wins. */
  lemma {:induction false} ProbNWinsAllWins(n: nat)
    ensures ProbNWins(Constant(n, 1.0)) == PointMass(n + 1, n)
  {
    ProbNWinsIsConvolution(Constant(n, 1.0));
    ConvolveCertainWins(n);
  }

  /** Certain losses every week put all the mass on 0 wins. */
  lemma {:induction false} ProbNWinsAllLosses(n: nat)
    ensures ProbNWins(Constant(n, 0.0)) == PointMass(n + 1, 0)
  {
    ProbNWinsIsConvolution(Constant(n, 0.0));
    ConvolveCertainLosses(n);
  }

  /** A season with no games played is certain to have zero wins. */
  lemma {:induction false} ProbNWinsNoWeeks()
    ensures ProbNWins([]) == [1.0]
  {
    ProbNWinsIsConvolution([]);
  }

  /** Two weeks at 0.8 and 0.3: P(0) = 0.2·0.7, P(1) = 0.8·0.7 + 0.2·0.3, P(2) = 0.8·0.3. */
  lemma {:induction false} ProbNWinsTwoWeeks()
    ensures ProbNWins([0.8, 0.3]) == [0.14, 0.62, 0.24]
  {
    var p := [0.8, 0.3];
    ProbNWinsIsConvolution(p);
    assert p[..1] == [0.8];
    assert [0.8][..0] == [];
    var d1 := Convolve([0.8]);
    StepAt([1.0], 0.8, 0);
    StepAt([1.0], 0.8, 1);
    assert d1 == [0.2, 0.8];
    StepAt(d1, 0.3, 0);
    StepAt(d1, 0.3, 1);
    StepAt(d1, 0.3, 2);
  }
}
