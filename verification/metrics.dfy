/** The weekly metrics of a team (src/Classes/Metrics.py): average, median,
    spread, expected wins and the distribution of the number of wins, over
    exact reals. */
module Metrics {
  import opened Wrappers
  import opened RealSeq
  import opened KeySort
  import WinDistribution

  /** The metric classes. */
  datatype Kind = AverageMetric | MedianMetric | StdDevMetric | ExpectedWinsMetric | ProbNWinsMetric

  /** A computed metric: one number, or a distribution indexed by the number of wins. */
  datatype Value = Number(x: real) | Distribution(d: seq<real>)

  /** A metric built from an empty list never computes a value; any other list
      is handed to the kind's computation. */
  function NewMetric(kind: Kind, values: seq<real>): (r: Option<Value>)
    ensures r.None? <==> |values| == 0
    ensures r.Some? && kind == ProbNWinsMetric ==> r.value.Distribution? && |r.value.d| == |values| + 1
    ensures r.Some? && kind != ProbNWinsMetric ==> r.value.Number?
    ensures r.Some? && kind == ExpectedWinsMetric ==> r.value.x == WeightedSum(WinDistribution.ProbNWins(values), 0)
  {
    if |values| == 0 then None
    else
      ComputeShape(kind, values);
      Some(Compute(kind, values))
  }

  /** The shape of each kind's value: a distribution over 0..n wins, or a number. */
  lemma {:induction false} ComputeShape(kind: Kind, values: seq<real>)
    requires |values| > 0
    ensures var v := Compute(kind, values);
            && (kind == ProbNWinsMetric ==> v.Distribution? && |v.d| == |values| + 1)
            && (kind != ProbNWinsMetric ==> v.Number?)
            && (kind == ExpectedWinsMetric ==> v.x == WeightedSum(WinDistribution.ProbNWins(values), 0))
  {
    if kind == ExpectedWinsMetric {
      ExpectedWinsIsMean(values);
    }
  }

  /** The value each kind computes from a non-empty list. The standard deviation
      is represented by its square, the variance. */
  function Compute(kind: Kind, values: seq<real>): Value
    requires |values| > 0
  {
    match kind
    case AverageMetric => Number(Average(values))
    case MedianMetric => Number(Median(values))
    case StdDevMetric => Number(Variance(values))
    case ExpectedWinsMetric => Number(ExpectedWins(values))
    case ProbNWinsMetric => Distribution(WinDistribution.ProbNWins(values))
  }

  /** Arithmetic mean; an empty list averages to 0. */
  function Average(values: seq<real>): (r: real)
    ensures |values| == 0 ==> r == 0.0
    ensures (|values| as real) * r == Sum(values)
  {
    if |values| == 0 then 0.0 else Sum(values) / (|values| as real)
  }

  /** n·a ≤ n·b with n > 0 gives a ≤ b. */
  lemma {:induction false} CancelPositive(n: real, a: real, b: real)
    requires n > 0.0 && n * a <= n * b
    ensures a <= b
  {
  }

  /** The mean lies between the least and the greatest value. */
  lemma {:induction false} AverageWithinRange(values: seq<real>)
    requires |values| > 0
    ensures MinOf(values) <= Average(values) <= MaxOf(values)
  {
    AverageBounds(values, MinOf(values), MaxOf(values));
  }

  /** Values within [lo, hi] average to a value within [lo, hi]. */
  lemma {:induction false} AverageBounds(values: seq<real>, lo: real, hi: real)
    requires |values| > 0
    requires forall k :: 0 <= k < |values| ==> lo <= values[k] <= hi
    ensures lo <= Average(values) <= hi
  {
    SumBounds(values, lo, hi);
    MeanBetween(|values| as real, Sum(values), lo, hi, Average(values));
  }

  lemma {:induction false} MeanBetween(n: real, s: real, lo: real, hi: real, a: real)
    requires n > 0.0 && n * lo <= s <= n * hi && n * a == s
    ensures lo <= a <= hi
  {
    CancelPositive(n, lo, a);
    CancelPositive(n, a, hi);
  }

  /** The mean does not depend on the order of the values. */
  lemma {:induction false} AverageIgnoresOrder(a: seq<real>, b: seq<real>)
    requires multiset(a) == multiset(b)
    ensures Average(a) == Average(b)
  {
    SumPermutation(a, b);
    assert |a| == |multiset(a)| == |multiset(b)| == |b|;
  }

  /** The middle element of the sorted values, or the mean of the two middle
      elements for an even count. A single value is returned as is. */
  function Median(values: seq<real>): (r: real)
    requires |values| > 0
    ensures |values| % 2 == 1 ==> r in values
  {
    if |values| == 1 then values[0]
    else
      var ordered := Sort(values, Identity);
      assert Middle(ordered) in ordered ==> Middle(ordered) in multiset(values);
      Middle(ordered)
  }

  /** The centre of an ascending sequence: its middle element for an odd length,
      the mean of its two middle elements for an even one. */
  function Middle(ordered: seq<real>): (r: real)
    requires |ordered| > 0
    ensures |ordered| % 2 == 1 ==> r in ordered
  {
    var center := |ordered| / 2;
    if |ordered| % 2 == 1 then ordered[center]
    else (ordered[center - 1] + ordered[center]) / 2.0
  }

  /** The median does not depend on the order of the values. */
  lemma {:induction false} MedianIgnoresOrder(a: seq<real>, b: seq<real>)
    requires |a| > 0 && multiset(a) == multiset(b)
    ensures |b| == |a| && Median(a) == Median(b)
  {
    assert |a| == |multiset(a)| == |multiset(b)| == |b|;
    if |a| == 1 {
      assert multiset(a) == multiset{a[0]} && multiset(b) == multiset{b[0]};
    } else {
      SortIgnoresInputOrder(a, b);
      assert Median(a) == Middle(Sort(a, Identity));
    }
  }

  /** Already ascending values have their median in the middle. */
  lemma {:induction false} MedianOfSorted(values: seq<real>)
    requires |values| > 1 && Sorted(values, Identity)
    ensures |values| % 2 == 1 ==> Median(values) == values[|values| / 2]
    ensures |values| % 2 == 0 ==> Median(values) == (values[|values| / 2 - 1] + values[|values| / 2]) / 2.0
  {
    SortedRealsUnique(Sort(values, Identity), values);
  }

  /** The median lies between the least and the greatest value. */
  lemma {:induction false} MedianWithinRange(values: seq<real>)
    requires |values| > 0
    ensures MinOf(values) <= Median(values) <= MaxOf(values)
  {
    if |values| > 1 {
      var ordered := Sort(values, Identity);
      var c := |values| / 2;
      forall k | 0 <= k < |ordered|
        ensures MinOf(values) <= ordered[k] <= MaxOf(values)
      {
        assert ordered[k] in multiset(values);
      }
      assert MinOf(values) <= ordered[c - 1] && ordered[c] <= MaxOf(values);
    }
  }

  /** (x - m)² for every value x. */
  function Deviations(values: seq<real>, m: real): (r: seq<real>)
    ensures |r| == |values|
    ensures forall k :: 0 <= k < |values| ==> r[k] == (values[k] - m) * (values[k] - m)
  {
    seq(|values|, k requires 0 <= k < |values| => (values[k] - m) * (values[k] - m))
  }

  /** Population variance: the mean squared deviation from the mean. */
  function Variance(values: seq<real>): (r: real)
    requires |values| > 0
  {
    Average(Deviations(values, Average(values)))
  }

  lemma {:induction false} SquareNonNegative(x: real)
    ensures x * x >= 0.0
  {
  }

  lemma {:induction false} SquareZero(x: real)
    requires x * x == 0.0
    ensures x == 0.0
  {
    ProductZero(x, x);
  }

  lemma {:induction false} ProductZero(a: real, b: real)
    requires a * b == 0.0
    ensures a == 0.0 || b == 0.0
  {
    if a != 0.0 && b != 0.0 {
      ProductNonZero(a, b);
    }
  }

  lemma {:induction false} ProductNonZero(a: real, b: real)
    requires a != 0.0 && b != 0.0
    ensures a * b != 0.0
  {
  }

  lemma {:induction false} DeviationsNonNegative(values: seq<real>, m: real)
    ensures forall k :: 0 <= k < |values| ==> Deviations(values, m)[k] >= 0.0
  {
    forall k | 0 <= k < |values|
      ensures Deviations(values, m)[k] >= 0.0
    {
      SquareNonNegative(values[k] - m);
    }
  }

  lemma {:induction false} VarianceNonNegative(values: seq<real>)
    requires |values| > 0
    ensures Variance(values) >= 0.0
  {
    DeviationsNonNegative(values, Average(values));
    SumNonNegative(Deviations(values, Average(values)));
  }

  /** Every pair of values is equal. */
  ghost predicate AllEqual(values: seq<real>)
  {
    forall i, j :: 0 <= i < |values| && 0 <= j < |values| ==> values[i] == values[j]
  }

  /** The spread is zero exactly when every value is the same. */
  lemma {:induction false} VarianceZeroIffConstant(values: seq<real>)
    requires |values| > 0
    ensures Variance(values) == 0.0 <==> AllEqual(values)
  {
    if AllEqual(values) {
      ConstantVarianceZero(values);
    }
    if Variance(values) == 0.0 {
      ZeroVarianceConstant(values);
    }
  }

  /** Equal values do not spread. */
  lemma {:induction false} ConstantVarianceZero(values: seq<real>)
    requires |values| > 0 && AllEqual(values)
    ensures Variance(values) == 0.0
  {
    var m := Average(values);
    var devs := Deviations(values, m);
    ConstantAverage(values);
    SumBounds(devs, 0.0, 0.0);
    assert Sum(devs) == 0.0;
  }

  /** Values that do not spread all sit on the mean. */
  lemma {:induction false} ZeroVarianceConstant(values: seq<real>)
    requires |values| > 0 && Variance(values) == 0.0
    ensures AllEqual(values)
  {
    var m := Average(values);
    var devs := Deviations(values, m);
    DeviationsNonNegative(values, m);
    ZeroQuotient(Sum(devs), |values| as real);
    SumZeroTerms(devs);
    forall k | 0 <= k < |values|
      ensures values[k] == m
    {
      SquareZero(values[k] - m);
    }
  }

  lemma {:induction false} ConstantAverage(values: seq<real>)
    requires |values| > 0 && AllEqual(values)
    ensures forall k :: 0 <= k < |values| ==> values[k] == Average(values)
  {
    var n := |values| as real;
    var m := Average(values);
    assert forall k :: 0 <= k < |values| ==> values[0] <= values[k] <= values[0];
    SumBounds(values, values[0], values[0]);
    assert n * m == Sum(values);
    assert n * values[0] <= Sum(values) <= n * values[0];
    CancelPositive(|values| as real, values[0], Average(values));
    CancelPositive(|values| as real, Average(values), values[0]);
  }

  lemma {:induction false} ZeroQuotient(a: real, n: real)
    requires n > 0.0 && a / n == 0.0
    ensures a == 0.0
  {
  }

  /** Sum of the weekly win probabilities. */
  function ExpectedWins(values: seq<real>): (r: real)
    ensures r == Average(values) * (|values| as real)
  {
    Sum(values)
  }

  /** The expected number of wins is the mean of the distribution of the number of wins. */
  lemma {:induction false} ExpectedWinsIsMean(values: seq<real>)
    ensures ExpectedWins(values) == WeightedSum(WinDistribution.ProbNWins(values), 0)
  {
    WinDistribution.ProbNWinsMean(values);
  }

  /** The enumeration of every win/loss scenario, loop for loop: each scenario's
      wins product times its losses product is added to the bucket of its size. */
  method ComputeProbNWins(values: seq<real>) returns (probNWins: seq<real>)
    ensures probNWins == WinDistribution.ProbNWins(values)
  {
    var n := |values|;
    probNWins := seq(n + 1, _ => 0.0);
    WinDistribution.ScenariosBelow(n);
    var scenarios := WinDistribution.Scenarios(n);
    for i := 0 to |scenarios|
      invariant WinDistribution.AllBelow(scenarios[..i], n)
      invariant probNWins == WinDistribution.Tally(values, scenarios[..i])
    {
      var scenario := scenarios[i];
      var winsProb := WinsProduct(values, scenario);
      var lossesProb := LossesProduct(values, scenario);
      var scenarioProb := winsProb * lossesProb;
      assert scenarioProb == WinDistribution.ScenarioProb(values, scenario);
      WinDistribution.TallyStep(values, scenarios, i);
      probNWins := probNWins[|scenario| := probNWins[|scenario|] + scenarioProb];
    }
    assert scenarios[..|scenarios|] == scenarios;
  }

  /** Product of the win probabilities of the weeks the scenario wins, in scenario order. */
  method WinsProduct(values: seq<real>, scenario: seq<nat>) returns (winsProb: real)
    requires WinDistribution.Below(scenario, |values|)
    ensures winsProb == WinDistribution.WinsProb(values, scenario)
  {
    winsProb := 1.0;
    for j := 0 to |scenario|
      invariant winsProb == WinDistribution.WinsProb(values, scenario[..j])
    {
      assert scenario[..j + 1][..j] == scenario[..j];
      MulEq(winsProb, values[scenario[j]], WinDistribution.WinsProb(values, scenario[..j]), values[scenario[..j + 1][j]]);
      winsProb := winsProb * values[scenario[j]];
    }
    assert scenario[..|scenario|] == scenario;
  }

  /** Product of the loss probabilities of every week the scenario does not win. */
  method LossesProduct(values: seq<real>, scenario: seq<nat>) returns (lossesProb: real)
    ensures lossesProb == WinDistribution.LossesProb(values, scenario, |values|)
  {
    lossesProb := 1.0;
    for idx := 0 to |values|
      invariant lossesProb == WinDistribution.LossesProb(values, scenario, idx)
    {
      if idx !in scenario {
        lossesProb := lossesProb * (1.0 - values[idx]);
      }
    }
  }
}
