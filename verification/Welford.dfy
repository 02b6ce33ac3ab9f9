/** The summary of a benchmark's runs: one pass over the results keeps a running average and a
    running second moment for each of six measurements.

    The average starts as the first sample, which the pass then folds in again. */
module Welford {

  datatype Phase = Phase(time: real, rate: real, period: real)

  datatype Result = Result(init: Phase, run: Phase)

  datatype Field = InitTime | InitRate | InitPeriod | RunTime | RunRate | RunPeriod

  function Get(r: Result, f: Field): real {
    match f
    case InitTime => r.init.time
    case InitRate => r.init.rate
    case InitPeriod => r.init.period
    case RunTime => r.run.time
    case RunRate => r.run.rate
    case RunPeriod => r.run.period
  }

  function Set(r: Result, f: Field, x: real): Result {
    match f
    case InitTime => r.(init := r.init.(time := x))
    case InitRate => r.(init := r.init.(rate := x))
    case InitPeriod => r.(init := r.init.(period := x))
    case RunTime => r.(run := r.run.(time := x))
    case RunRate => r.(run := r.run.(rate := x))
    case RunPeriod => r.(run := r.run.(period := x))
  }

  // ---------------------------------------------------------------- The two-pass definition

  function Total(rs: seq<Result>, f: Field): real {
    if rs == [] then 0.0 else Total(rs[..|rs| - 1], f) + Get(rs[|rs| - 1], f)
  }

  function Times(x: real, y: real): real { x * y }

  function Sq(x: real): real { Times(x, x) }

  /** The sum of the squared distances from c. */
  function Spread(rs: seq<Result>, f: Field, c: real): real {
    if rs == [] then 0.0 else Spread(rs[..|rs| - 1], f, c) + Sq(Get(rs[|rs| - 1], f) - c)
  }

  function Mean(rs: seq<Result>, f: Field): real
    requires rs != []
  {
    Total(rs, f) / |rs| as real
  }

  /** How the spread of n samples with total t changes when the centre moves from c to d. */
  function Shift(n: real, t: real, c: real, d: real): real {
    2.0 * ((c - d) * (t - n * c)) + n * Sq(c - d)
  }

  lemma {:induction false} SpreadShift(rs: seq<Result>, f: Field, c: real, d: real)
    ensures Spread(rs, f, d) == Spread(rs, f, c) + Shift(|rs| as real, Total(rs, f), c, d)
  {
    if rs != [] {
      hide Shift, Sq;
      var init, x := rs[..|rs| - 1], Get(rs[|rs| - 1], f);
      SpreadShift(init, f, c, d);
      ShiftStep(|init| as real, Total(init, f), x, c, d);
    }
  }

  lemma ShiftStep(n: real, t: real, x: real, c: real, d: real)
    ensures Shift(n, t, c, d) + Sq(x - d) == Sq(x - c) + Shift(n + 1.0, t + x, c, d)
  {
  }

  lemma TimesPositive(x: real, y: real)
    requires x > 0.0 && y > 0.0
    ensures Times(x, y) > 0.0 && Times(-x, -y) == Times(x, y)
  {
  }

  lemma SquarePositive(x: real)
    ensures Sq(x) >= 0.0 && (Sq(x) == 0.0 <==> x == 0.0)
  {
    if x < 0.0 {
      TimesPositive(-x, -x);
      assert -(-x) == x;
    } else if x > 0.0 {
      TimesPositive(x, x);
    }
  }

  lemma ProductPositive(n: real, x: real)
    requires n >= 0.0 && x >= 0.0
    ensures n * x >= 0.0
  {
  }

  lemma MeanTimesCount(t: real, n: real)
    requires n > 0.0
    ensures t - n * (t / n) == 0.0
  {
  }

  /** No centre has a smaller spread than the mean. */
  lemma MeanIsBest(rs: seq<Result>, f: Field, c: real)
    requires rs != []
    ensures Spread(rs, f, Mean(rs, f)) <= Spread(rs, f, c)
  {
    hide Spread, Sq, Total;
    var m, n := Mean(rs, f), |rs| as real;
    SpreadShift(rs, f, m, c);
    MeanTimesCount(Total(rs, f), n);
    SquarePositive(m - c);
    ProductPositive(n, Sq(m - c));
  }

  lemma {:induction false} SpreadZeroIff(rs: seq<Result>, f: Field, c: real)
    ensures Spread(rs, f, c) >= 0.0
    ensures Spread(rs, f, c) == 0.0 <==> forall i :: 0 <= i < |rs| ==> Get(rs[i], f) == c
  {
    if rs != [] {
      var init, x := rs[..|rs| - 1], Get(rs[|rs| - 1], f);
      SpreadZeroIff(init, f, c);
      SquarePositive(x - c);
      assert forall i :: 0 <= i < |init| ==> init[i] == rs[i];
    }
  }

  // ---------------------------------------------------------------- The one-pass step

  /** What the pass has for one measurement after the results rs. */
  ghost predicate Summarizes(rs: seq<Result>, f: Field, average: real, moment2: real) {
    Balanced(average, |rs|, Total(rs, f)) && moment2 == Spread(rs, f, average)
  }

  predicate Balanced(average: real, n: nat, total: real) {
    average * n as real == total
  }

  function NextAverage(n: nat, average: real, x: real): real {
    average + (x - average) / (n + 1) as real
  }

  function NextMoment(n: nat, average: real, moment2: real, x: real): real {
    moment2 + (x - average) * (x - NextAverage(n, average, x))
  }

  lemma StepSummarizes(rs: seq<Result>, r: Result, f: Field, average: real, moment2: real)
    requires Summarizes(rs, f, average, moment2)
    ensures var n, x := |rs|, Get(r, f);
      Summarizes(rs + [r], f, NextAverage(n, average, x), NextMoment(n, average, moment2, x))
  {
    hide Get, Shift, Sq, NextAverage, NextMoment, Balanced;
    var n, x := |rs|, Get(r, f);
    var next := NextAverage(n, average, x);
    assert (rs + [r])[..|rs + [r]| - 1] == rs;
    SpreadShift(rs, f, average, next);
    StepAlgebra(n, Total(rs, f), average, moment2, x);
  }

  lemma StepAlgebra(n: nat, t: real, a: real, m: real, x: real)
    requires Balanced(a, n, t)
    ensures var next := NextAverage(n, a, x);
      && Balanced(next, n + 1, t + x)
      && m + Shift(n as real, t, a, next) + Sq(x - next) == NextMoment(n, a, m, x)
  {
  }

  // ---------------------------------------------------------------- The program

  method Accumulate(f: Field, run: Result, average: Result, moment2: Result, count: nat, ghost rs: seq<Result>)
    returns (a: Result, m: Result)
    requires count == |rs| + 1 && Summarizes(rs, f, Get(average, f), Get(moment2, f))
    ensures Summarizes(rs + [run], f, Get(a, f), Get(m, f))
    ensures forall g :: g != f ==> Get(a, g) == Get(average, g) && Get(m, g) == Get(moment2, g)
  {
    hide Summarizes;
    var deltaPre := Get(run, f) - Get(average, f);
    a := Set(average, f, Get(average, f) + deltaPre / count as real);
    var deltaPost := Get(run, f) - Get(a, f);
    m := Set(moment2, f, Get(moment2, f) + deltaPre * deltaPost);
    StepSummarizes(rs, run, f, Get(average, f), Get(moment2, f));
    assert Get(a, f) == NextAverage(|rs|, Get(average, f), Get(run, f));
    assert Get(m, f) == NextMoment(|rs|, Get(average, f), Get(moment2, f), Get(run, f));
  }

  /** The averages and the squares of the standard deviations; nothing for fewer than two runs. */
  method Log(results: seq<Result>) returns (logged: bool, average: Result, variance: Result)
    ensures logged == (|results| >= 2)
    ensures logged ==> forall f: Field ::
      Get(average, f) == Mean(results, f) && Get(variance, f) == Spread(results, f, Mean(results, f)) / |results| as real
    ensures logged ==> forall f: Field :: Get(variance, f) >= 0.0
  {
    var zero := Phase(0.0, 0.0, 0.0);
    average, variance := Result(zero, zero), Result(zero, zero);
    if |results| < 2 { return false, average, variance; }
    average := results[0];
    var moment2 := Result(zero, zero);
    var n := 0;
    while n < |results|
      invariant n <= |results|
      invariant forall f: Field :: Summarizes(results[..n], f, Get(average, f), Get(moment2, f))
    {
      hide Summarizes;
      var run := results[n];
      ghost var rs := results[..n];
      assert results[..n + 1] == rs + [run];
      average, moment2 := Accumulate(InitTime, run, average, moment2, n + 1, rs);
      average, moment2 := Accumulate(InitRate, run, average, moment2, n + 1, rs);
      average, moment2 := Accumulate(InitPeriod, run, average, moment2, n + 1, rs);
      average, moment2 := Accumulate(RunTime, run, average, moment2, n + 1, rs);
      average, moment2 := Accumulate(RunRate, run, average, moment2, n + 1, rs);
      average, moment2 := Accumulate(RunPeriod, run, average, moment2, n + 1, rs);
      n := n + 1;
    }
    assert results[..n] == results;
    variance := Over(moment2, n);
    forall f: Field
      ensures Get(average, f) == Mean(results, f) && Get(moment2, f) == Spread(results, f, Mean(results, f))
      ensures Get(variance, f) >= 0.0
    {
      MeanFromSum(Get(average, f), n as real, Total(results, f));
      SpreadZeroIff(results, f, Mean(results, f));
    }
    logged := true;
  }

  lemma MeanFromSum(a: real, n: real, t: real)
    requires n > 0.0 && a * n == t
    ensures a == t / n
  {
  }

  function Over(r: Result, n: nat): (q: Result)
    requires n > 0
    ensures forall f: Field :: Get(q, f) == Get(r, f) / n as real
  {
    var d := n as real;
    Result(Phase(r.init.time / d, r.init.rate / d, r.init.period / d),
           Phase(r.run.time / d, r.run.rate / d, r.run.period / d))
  }
}
