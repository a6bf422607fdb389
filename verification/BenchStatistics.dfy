/** The statistics over the benchmark runs (utils/bench-scheduler.cc, `BenchSuite::Log`),
    with exact real arithmetic in the place of doubles. */
module BenchStatistics {
  import opened Sequences

  datatype PhaseResult = PhaseResult(time: real, rate: real, period: real)

  datatype Result = Result(init: PhaseResult, run: PhaseResult)

  datatype Field = InitTime | InitRate | InitPeriod | RunTime | RunRate | RunPeriod

  function Get(r: Result, f: Field): real {
    match f
    case InitTime => r.init.time
    case InitRate => r.init.rate
    case InitPeriod => r.init.period
    case RunTime => r.run.time
    case RunRate => r.run.rate
    case RunPeriod => r.run.period
  }

  /** The six fields make up a result. */
  lemma FieldsAreAll(a: Result, b: Result)
    ensures a == b <==> forall f :: Get(a, f) == Get(b, f)
  {
    if forall f :: Get(a, f) == Get(b, f) {
      assert Get(a, InitTime) == Get(b, InitTime) && Get(a, InitRate) == Get(b, InitRate);
      assert Get(a, InitPeriod) == Get(b, InitPeriod) && Get(a, RunTime) == Get(b, RunTime);
      assert Get(a, RunRate) == Get(b, RunRate) && Get(a, RunPeriod) == Get(b, RunPeriod);
    }
  }

  ghost function Column(results: seq<Result>, f: Field): seq<real> {
    seq(|results|, i requires 0 <= i < |results| => Get(results[i], f))
  }

  // ----- Mean and squared deviations, by definition -----

  /** The sum of the squared distances from `m`. */
  ghost function Deviation(xs: seq<real>, m: real): real {
    if xs == [] then 0.0 else
      var x := xs[|xs| - 1];
      Deviation(xs[..|xs| - 1], m) + (x - m) * (x - m)
  }

  ghost predicate IsMean(xs: seq<real>, m: real) {
    m * |xs| as real == Sum(xs)
  }

  lemma SquareIsNonNegative(x: real)
    ensures x * x >= 0.0
  {
    if x < 0.0 {
      assert x * x == (-x) * (-x);
    }
  }

  lemma {:induction false} DeviationIsNonNegative(xs: seq<real>, m: real)
    ensures Deviation(xs, m) >= 0.0
  {
    if xs != [] {
      DeviationIsNonNegative(xs[..|xs| - 1], m);
      SquareIsNonNegative(xs[|xs| - 1] - m);
    }
  }

  /** Moving the centre from `m` to `m + d`. */
  lemma {:induction false} ShiftDeviation(xs: seq<real>, m: real, d: real)
    ensures Deviation(xs, m + d) == Deviation(xs, m) - ShiftLoss(Sum(xs), |xs|, m, d)
  {
    hide ShiftLoss;
    if xs == [] {
      NothingLost(m, d);
    } else {
      var front, x := xs[..|xs| - 1], xs[|xs| - 1];
      ShiftDeviation(front, m, d);
      OneMoreLost(Sum(front), |front|, m, d, x);
    }
  }

  /** What the deviation of `n` samples with this sum loses when the centre moves. */
  ghost function ShiftLoss(sum: real, n: nat, m: real, d: real): real {
    2.0 * d * (sum - m * n as real) - d * d * n as real
  }

  lemma NothingLost(m: real, d: real)
    ensures ShiftLoss(0.0, 0, m, d) == 0.0
  {
  }

  lemma OneMoreLost(sum: real, n: nat, m: real, d: real, x: real)
    ensures (x - (m + d)) * (x - (m + d)) - ShiftLoss(sum, n, m, d)
            == (x - m) * (x - m) - ShiftLoss(sum + x, n + 1, m, d)
  {
    OneMoreLostReal(sum, n as real, m, d, x);
    assert (n + 1) as real == n as real + 1.0;
  }

  lemma OneMoreLostReal(sum: real, n: real, m: real, d: real, x: real)
    ensures (x - (m + d)) * (x - (m + d)) - (2.0 * d * (sum - m * n) - d * d * n)
            == (x - m) * (x - m) - (2.0 * d * (sum + x - m * (n + 1.0)) - d * d * (n + 1.0))
  {
  }

  /** From the mean, the deviation only grows. */
  lemma ShiftFromMean(xs: seq<real>, m: real, d: real)
    requires IsMean(xs, m)
    ensures Deviation(xs, m + d) == Deviation(xs, m) + Growth(d, |xs|)
  {
    hide Deviation, ShiftLoss, Growth;
    ShiftDeviation(xs, m, d);
    MeanLosesNothing(Sum(xs), |xs|, m, d);
  }

  lemma MeanLosesNothing(sum: real, n: nat, m: real, d: real)
    requires m * n as real == sum
    ensures -ShiftLoss(sum, n, m, d) == Growth(d, n)
  {
    assert sum - m * n as real == 0.0;
  }

  ghost function Growth(d: real, n: nat): (g: real)
    ensures g >= 0.0
  {
    SquareIsNonNegative(d);
    ProductIsNonNegative(d * d, n as real);
    d * d * n as real
  }

  lemma ProductIsNonNegative(x: real, y: real)
    requires x >= 0.0 && y >= 0.0
    ensures x * y >= 0.0
  {
  }

  /** The mean is where the squared deviations are smallest. */
  lemma MeanMinimisesDeviation(xs: seq<real>, m: real, other: real)
    requires IsMean(xs, m)
    ensures Deviation(xs, m) <= Deviation(xs, other)
  {
    ShiftFromMean(xs, m, other - m);
    assert m + (other - m) == other;
  }

  // ----- One step of the online algorithm -----

  function Over(x: real, n: nat): (q: real)
    requires n > 0
    ensures q * n as real == x && (x >= 0.0 ==> q >= 0.0)
  {
    x / n as real
  }

  function Product(x: real, y: real): real {
    x * y
  }

  datatype Moments = Moments(average: real, moment2: real)

  /** One accumulation: the deviation before and after the average is moved. */
  function Accumulate(m: Moments, x: real, count: nat): Moments
    requires count > 0
  {
    var deltaPre := x - m.average;
    var average := m.average + Over(deltaPre, count);
    var deltaPost := x - average;
    Moments(average, m.moment2 + Product(deltaPre, deltaPost))
  }

  /** `m` holds the mean of `xs` and its squared deviations; nothing is known of the average of no samples. */
  ghost predicate Describes(m: Moments, xs: seq<real>) {
    IsMean(xs, m.average) && m.moment2 == Deviation(xs, m.average)
  }

  lemma AccumulateDescribes(m: Moments, xs: seq<real>, x: real)
    requires Describes(m, xs)
    ensures Describes(Accumulate(m, x, |xs| + 1), xs + [x])
  {
    hide Deviation, Over, Accumulate, IsMean, Product;
    var d := Over(x - m.average, |xs| + 1);
    MeanMoves(xs, m.average, x, d);
    DeviationMoves(xs, m.average, x, d);
    AccumulateMoves(m, x, |xs| + 1);
  }

  lemma AccumulateMoves(m: Moments, x: real, count: nat)
    requires count > 0
    ensures var d := Over(x - m.average, count);
            Accumulate(m, x, count) == Moments(m.average + d, m.moment2 + Product(x - m.average, x - (m.average + d)))
  {
    hide Over, Product;
  }

  lemma MeanMoves(xs: seq<real>, a: real, x: real, d: real)
    requires IsMean(xs, a) && d * (|xs| + 1) as real == x - a
    ensures IsMean(xs + [x], a + d)
  {
    assert (xs + [x])[..|xs|] == xs;
    var n := |xs| as real;
    assert (|xs| + 1) as real == n + 1.0;
    assert (a + d) * (n + 1.0) == a * n + a + d * (n + 1.0);
  }

  lemma DeviationMoves(xs: seq<real>, a: real, x: real, d: real)
    requires IsMean(xs, a) && d * (|xs| + 1) as real == x - a
    ensures Deviation(xs + [x], a + d) == Deviation(xs, a) + Product(x - a, x - (a + d))
  {
    hide *;
    DeviationSnoc(xs, x, a + d);
    ShiftFromMean(xs, a, d);
    GrowthAndLast(|xs|, a, x, d);
  }

  lemma DeviationSnoc(xs: seq<real>, x: real, m: real)
    ensures Deviation(xs + [x], m) == Deviation(xs, m) + (x - m) * (x - m)
  {
    assert (xs + [x])[..|xs|] == xs;
  }

  lemma GrowthAndLast(n: nat, a: real, x: real, d: real)
    requires d * (n + 1) as real == x - a
    ensures Growth(d, n) + (x - (a + d)) * (x - (a + d)) == Product(x - a, x - (a + d))
  {
    var e := d * n as real;
    assert (n + 1) as real == n as real + 1.0;
    assert x - (a + d) == e && x - a == e + d;
    assert Growth(d, n) == d * e;
    assert d * e + e * e == (e + d) * e;
  }

  lemma DescribesNothing(a: real)
    ensures Describes(Moments(a, 0.0), [])
  {
  }

  lemma DescribesMeans(m: Moments, xs: seq<real>)
    requires Describes(m, xs)
    ensures IsMean(xs, m.average) && m.moment2 == Deviation(xs, m.average) && m.moment2 >= 0.0
  {
    DeviationIsNonNegative(xs, m.average);
  }

  datatype Statistics = TooFew | Statistics(average: Result, variance: Result)

  function At(average: Result, moment2: Result, f: Field): Moments {
    Moments(Get(average, f), Get(moment2, f))
  }

  /** The averages and the variances, whose roots are the standard deviations that are printed. */
  method Log(results: seq<Result>) returns (r: Statistics)
    ensures r.TooFew? <==> |results| < 2
    ensures r.Statistics? ==> forall f ::
              && IsMean(Column(results, f), Get(r.average, f))
              && Get(r.variance, f) * |results| as real == Deviation(Column(results, f), Get(r.average, f))
              && Get(r.variance, f) >= 0.0
  {
    hide Deviation, IsMean, Over, Accumulate, Describes;
    if |results| < 2 {
      return TooFew;
    }
    var average := results[0];
    var moment2 := Result(PhaseResult(0.0, 0.0, 0.0), PhaseResult(0.0, 0.0, 0.0));
    var n := 0;
    StartDescribes(average, moment2, results);
    while n < |results|
      invariant n <= |results|
      invariant forall f :: Describes(At(average, moment2, f), Column(results[..n], f))
    {
      ghost var a, m := average, moment2;
      average, moment2 := AccumulateAll(average, moment2, results[n], n + 1);
      ColumnsDescribed(results, n, a, m, average, moment2);
      n := n + 1;
    }
    assert results[..n] == results;
    var variance := Result(
      PhaseResult(Over(moment2.init.time, n), Over(moment2.init.rate, n), Over(moment2.init.period, n)),
      PhaseResult(Over(moment2.run.time, n), Over(moment2.run.rate, n), Over(moment2.run.period, n)));
    forall f
      ensures Get(variance, f) * n as real == Deviation(Column(results, f), Get(average, f))
      ensures Get(variance, f) >= 0.0 && IsMean(Column(results, f), Get(average, f))
    {
      DescribesMeans(At(average, moment2, f), Column(results, f));
      assert Get(variance, f) == Over(Get(moment2, f), n);
    }
    return Statistics(average, variance);
  }

  /** The six accumulations for one run. */
  method AccumulateAll(average: Result, moment2: Result, run: Result, count: nat)
    returns (average': Result, moment2': Result)
    requires count > 0
    ensures forall f :: At(average', moment2', f) == Accumulate(At(average, moment2, f), Get(run, f), count)
  {
    hide Accumulate;
    var it := Accumulate(Moments(average.init.time, moment2.init.time), run.init.time, count);
    var ir := Accumulate(Moments(average.init.rate, moment2.init.rate), run.init.rate, count);
    var ip := Accumulate(Moments(average.init.period, moment2.init.period), run.init.period, count);
    var rt := Accumulate(Moments(average.run.time, moment2.run.time), run.run.time, count);
    var rr := Accumulate(Moments(average.run.rate, moment2.run.rate), run.run.rate, count);
    var rp := Accumulate(Moments(average.run.period, moment2.run.period), run.run.period, count);
    average' := Result(PhaseResult(it.average, ir.average, ip.average), PhaseResult(rt.average, rr.average, rp.average));
    moment2' := Result(PhaseResult(it.moment2, ir.moment2, ip.moment2), PhaseResult(rt.moment2, rr.moment2, rp.moment2));
  }

  lemma StartDescribes(average: Result, moment2: Result, results: seq<Result>)
    requires forall f :: Get(moment2, f) == 0.0
    ensures forall f :: Describes(At(average, moment2, f), Column(results[..0], f))
  {
    forall f
      ensures Describes(At(average, moment2, f), Column(results[..0], f))
    {
      DescribesNothing(Get(average, f));
      assert Column(results[..0], f) == [];
    }
  }

  lemma ColumnsDescribed(results: seq<Result>, n: nat, a: Result, m: Result, a': Result, m': Result)
    requires n < |results|
    requires forall f :: Describes(At(a, m, f), Column(results[..n], f))
    requires forall f :: At(a', m', f) == Accumulate(At(a, m, f), Get(results[n], f), n + 1)
    ensures forall f :: Describes(At(a', m', f), Column(results[..n + 1], f))
  {
    hide Describes, Accumulate;
    forall f
      ensures Describes(At(a', m', f), Column(results[..n + 1], f))
    {
      AccumulateDescribes(At(a, m, f), Column(results[..n], f), Get(results[n], f));
      assert Column(results[..n + 1], f) == Column(results[..n], f) + [Get(results[n], f)];
    }
  }
}
