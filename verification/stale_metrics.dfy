/** The older metrics of src/Metrics.py. They read each week through two
    accessors of a week class that is not part of this model, and they compute
    eagerly on construction, so an empty list reaches the division. */
module StaleMetrics {
  import opened Wrappers
  import opened RealSeq
  import Metrics
  import WinDistribution

  /** What the metrics read from a week: its points and its win probability. */
  datatype StaleWeek = StaleWeek(points: real, winProb: real)

  function PointsOf(weeks: seq<StaleWeek>): (r: seq<real>)
    ensures |r| == |weeks| && forall k :: 0 <= k < |weeks| ==> r[k] == weeks[k].points
  {
    seq(|weeks|, k requires 0 <= k < |weeks| => weeks[k].points)
  }

  function WinProbsOf(weeks: seq<StaleWeek>): (r: seq<real>)
    ensures |r| == |weeks| && forall k :: 0 <= k < |weeks| ==> r[k] == weeks[k].winProb
  {
    seq(|weeks|, k requires 0 <= k < |weeks| => weeks[k].winProb)
  }

  /** The mean, then the mean squared deviation from it (the square of the
      returned spread). An empty list divides by zero: None. */
  function StdDev(weeks: seq<StaleWeek>): (r: Option<real>)
    ensures r.None? <==> |weeks| == 0
    ensures r.Some? ==> r.value == Metrics.Variance(PointsOf(weeks))
    ensures r.Some? ==> r.value >= 0.0
  {
    var points := PointsOf(weeks);
    if |points| == 0 then None
    else
      var n := |points| as real;
      var mean := Sum(points) / n;
      Metrics.VarianceNonNegative(points);
      Some(Sum(Metrics.Deviations(points, mean)) / n)
  }

  /** The sum of the weekly win probabilities, 0 for no weeks. */
  function ExpectedWins(weeks: seq<StaleWeek>): (r: real)
    ensures r == Metrics.ExpectedWins(WinProbsOf(weeks))
    ensures r == WeightedSum(WinDistribution.ProbNWins(WinProbsOf(weeks)), 0)
  {
    Metrics.ExpectedWinsIsMean(WinProbsOf(weeks));
    Sum(WinProbsOf(weeks))
  }

  /** The same scenario enumeration as src/Classes/Metrics.py over the weeks'
      win probabilities. Unlike there, no weeks still computes: one empty
      scenario of mass 1. */
  method ProbNWins(weeks: seq<StaleWeek>) returns (probNWins: seq<real>)
    ensures probNWins == WinDistribution.ProbNWins(WinProbsOf(weeks))
    ensures |weeks| > 0 ==>
      Metrics.NewMetric(Metrics.ProbNWinsMetric, WinProbsOf(weeks)) == Some(Metrics.Distribution(probNWins))
    ensures |weeks| == 0 ==> probNWins == [1.0]
  {
    probNWins := Metrics.ComputeProbNWins(WinProbsOf(weeks));
    if |weeks| == 0 {
      WinDistribution.ProbNWinsNoWeeks();
    }
  }
}
