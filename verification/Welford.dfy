/** The benchmark summary of utils/bench-scheduler.cc: Welford's one-pass mean
    and second moment of six measurements.  Doubles are exact reals. */
module Welford {
  import opened Arithmetic
  import opened Moments

  datatype Phase = Phase(time: real, rate: real, period: real)

  datatype Measurement = Measurement(init: Phase, run: Phase)

  datatype Field = InitTime | InitRate | InitPeriod | RunTime | RunRate | RunPeriod

  function Get(m: Measurement, f: Field): real {
    match f
    case InitTime => m.init.time
    case InitRate => m.init.rate
    case InitPeriod => m.init.period
    case RunTime => m.run.time
    case RunRate => m.run.rate
    case RunPeriod => m.run.period
  }

  function Column(ms: seq<Measurement>, f: Field): seq<real> {
    seq(|ms|, i requires 0 <= i < |ms| => Get(ms[i], f))
  }

  /** The accumulators hold the exact mean and second moment of the samples;
      before the first sample only the moment is meaningful. */
  ghost predicate Exact(s: seq<real>, average: real, moment2: real) {
    if s == [] then moment2 == 0.0
    else average == Mean(s) && moment2 == Deviation(s, average)
  }

  /** The sum of the (signed) deviations from c. */
  ghost function Centred(s: seq<real>, c: real): real {
    if s == [] then 0.0 else Centred(s[..|s| - 1], c) + (s[|s| - 1] - c)
  }

  lemma {:induction false} CentredSum(s: seq<real>, c: real)
    ensures Centred(s, c) == Sum(s) - Mul(|s| as real, c)
  {
    if s == [] {
    } else {
      var n := (|s| - 1) as real;
      CentredSum(s[..|s| - 1], c);
      assert Mul(n + 1.0, c) == Mul(n, c) + c;
    }
  }

  /** Moving the centre by d. */
  lemma {:induction false} Recentre(s: seq<real>, c: real, d: real)
    ensures Deviation(s, c + d) == Shifted(Deviation(s, c), Centred(s, c), |s| as real, d)
  {
    if s == [] {
      ShiftedZero(d);
    } else {
      var last := |s| - 1;
      Recentre(s[..last], c, d);
      assert s[last] - (c + d) == s[last] - c - d;
      ShiftedMore(Deviation(s[..last], c), Centred(s[..last], c), last as real, s[last] - c, d);
    }
  }

  lemma CentredAtMean(s: seq<real>)
    requires s != []
    ensures Mul(|s| as real, Mean(s)) == Sum(s) && Centred(s, Mean(s)) == 0.0
  {
    assert |s| as real * (Sum(s) / |s| as real) == Sum(s);
    CentredSum(s, Mean(s));
  }

  /** One update as plain arithmetic: n samples with mean a and moment m, and x. */
  lemma Update(n: real, a: real, m: real, x: real, d: real)
    requires n > 0.0 && d == (x - a) / (n + 1.0)
    ensures a + d == (Mul(n, a) + x) / (n + 1.0)
    ensures m + Mul(x - a, x - (a + d)) == Shifted(m, 0.0, n, d) + Sq(x - (a + d))
  {
    assert (n + 1.0) * d == x - a;
    assert (n + 1.0) * (a + d) == n * a + a + (n + 1.0) * d;
    assert x - (a + d) == n * d;
    assert (n * d + d) * (n * d) == (n * d) * (n * d) + d * (n * d);
    assert d * (n * d) == n * (d * d);
  }

  /** One ACCUMULATE: with d = (x - a) / (n + 1) the mean moves by d and the
      second moment grows by n * (n + 1) * d^2. */
  lemma StepIsExact(s: seq<real>, x: real, a: real, m: real, a': real, m': real)
    requires Exact(s, a, m)
    requires a' == a + (x - a) / (|s| + 1) as real
    requires m' == m + Mul(x - a, x - a')
    ensures Exact(s + [x], a', m')
  {
    assert (s + [x])[..|s|] == s;
    if s == [] {
      assert a' == x && m' == 0.0;
      assert Sum(s + [x]) == x && Sq(x - x) == 0.0;
    } else {
      var n, d := |s| as real, (x - a) / (|s| + 1) as real;
      CentredAtMean(s);
      Update(n, a, m, x, d);
      Recentre(s, a, d);
    }
  }

  method Accumulate(x: real, average: real, moment2: real, count: nat, ghost s: seq<real>)
    returns (average': real, moment2': real)
    requires count == |s| + 1 && Exact(s, average, moment2)
    ensures Exact(s + [x], average', moment2')
  {
    var deltaPre := x - average;
    average' := average + deltaPre / count as real;
    var deltaPost := x - average';
    moment2' := moment2 + Mul(deltaPre, deltaPost);
    StepIsExact(s, x, average, moment2, average', moment2');
  }

  datatype Summary = Nothing | Summary(average: Measurement, variance: Measurement)

  ghost predicate AllExact(ms: seq<Measurement>, average: Measurement, moment2: Measurement) {
    forall f: Field :: Exact(Column(ms, f), Get(average, f), Get(moment2, f))
  }

  lemma ColumnAppend(ms: seq<Measurement>, m: Measurement, f: Field)
    ensures Column(ms + [m], f) == Column(ms, f) + [Get(m, f)]
  {
  }

  /** The loop body: one ACCUMULATE for each of the six fields. */
  method AccumulateAll(run: Measurement, average: Measurement, moment2: Measurement, count: nat,
                       ghost before: seq<Measurement>)
    returns (average': Measurement, moment2': Measurement)
    requires count == |before| + 1 && AllExact(before, average, moment2)
    ensures AllExact(before + [run], average', moment2')
  {
    assert forall f: Field :: Exact(Column(before, f), Get(average, f), Get(moment2, f));
    var a1, m1 := Accumulate(run.init.time, Get(average, InitTime), Get(moment2, InitTime), count, Column(before, InitTime));
    var a2, m2 := Accumulate(run.init.rate, Get(average, InitRate), Get(moment2, InitRate), count, Column(before, InitRate));
    var a3, m3 := Accumulate(run.init.period, Get(average, InitPeriod), Get(moment2, InitPeriod), count, Column(before, InitPeriod));
    var a4, m4 := Accumulate(run.run.time, Get(average, RunTime), Get(moment2, RunTime), count, Column(before, RunTime));
    var a5, m5 := Accumulate(run.run.rate, Get(average, RunRate), Get(moment2, RunRate), count, Column(before, RunRate));
    var a6, m6 := Accumulate(run.run.period, Get(average, RunPeriod), Get(moment2, RunPeriod), count, Column(before, RunPeriod));
    average' := Measurement(Phase(a1, a2, a3), Phase(a4, a5, a6));
    moment2' := Measurement(Phase(m1, m2, m3), Phase(m4, m5, m6));
    forall f: Field
      ensures Exact(Column(before + [run], f), Get(average', f), Get(moment2', f))
    {
      ColumnAppend(before, run, f);
    }
  }

  /** The mean of a column, and its population variance: not negative, and zero
      exactly when all samples are equal to the mean. */
  ghost predicate IsSummaryOf(s: seq<real>, average: real, variance: real) {
    && s != []
    && average == Mean(s)
    && variance == Deviation(s, Mean(s)) / |s| as real
    && variance >= 0.0
    && (variance == 0.0 <==> forall i :: 0 <= i < |s| ==> s[i] == Mean(s))
  }

  lemma Summarize(s: seq<real>, average: real, moment2: real, variance: real)
    requires s != [] && Exact(s, average, moment2) && variance == moment2 / |s| as real
    ensures IsSummaryOf(s, average, variance)
  {
    DeviationSign(s, Mean(s));
    Quotient(moment2, |s| as real);
  }

  function Scaled(m: Measurement, n: nat): (r: Measurement)
    requires n > 0
    ensures forall f: Field :: Get(r, f) == Get(m, f) / n as real
  {
    Measurement(Phase(m.init.time / n as real, m.init.rate / n as real, m.init.period / n as real),
                Phase(m.run.time / n as real, m.run.rate / n as real, m.run.period / n as real))
  }

  /** BenchSuite::Log: nothing for fewer than two runs; otherwise the mean of
      every measurement and the value whose square root is its deviation. */
  method Log(results: seq<Measurement>) returns (r: Summary)
    ensures |results| < 2 <==> r.Nothing?
    ensures |results| >= 2 ==> forall f: Field ::
      IsSummaryOf(Column(results, f), Get(r.average, f), Get(r.variance, f))
  {
    if |results| < 2 {
      return Nothing;
    }
    var average := results[0];
    var moment2 := Measurement(Phase(0.0, 0.0, 0.0), Phase(0.0, 0.0, 0.0));
    var n := 0;
    while n < |results|
      invariant n <= |results|
      invariant AllExact(results[..n], average, moment2)
    {
      assert results[..n + 1] == results[..n] + [results[n]];
      average, moment2 := AccumulateAll(results[n], average, moment2, n + 1, results[..n]);
      n := n + 1;
    }
    assert results[..n] == results;
    r := Summary(average, Scaled(moment2, n));
    forall f: Field
      ensures IsSummaryOf(Column(results, f), Get(r.average, f), Get(r.variance, f))
    {
      Summarize(Column(results, f), Get(average, f), Get(moment2, f), Get(r.variance, f));
    }
  }
}
