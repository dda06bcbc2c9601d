/** The averages and deviations of `BenchSuite::Log`, over the reals: the online accumulation against
    the mean and the sum of squared deviations. */
module BenchStatistics {
  import opened Sequences

  datatype PhaseResult = PhaseResult(time: real, rate: real, period: real)

  datatype Result = Result(init: PhaseResult, run: PhaseResult)

  datatype Field = InitTime | InitRate | InitPeriod | RunTime | RunRate | RunPeriod

  function Get(r: Result, f: Field): real
  {
    match f
    case InitTime => r.init.time
    case InitRate => r.init.rate
    case InitPeriod => r.init.period
    case RunTime => r.run.time
    case RunRate => r.run.rate
    case RunPeriod => r.run.period
  }

  /** The six fields are the six numbers of a result. */
  lemma FieldsOf(r: Result)
    ensures r == Result(PhaseResult(Get(r, InitTime), Get(r, InitRate), Get(r, InitPeriod)),
                        PhaseResult(Get(r, RunTime), Get(r, RunRate), Get(r, RunPeriod)))
  {
  }

  ghost function Square(x: real): real { x * x }

  // ---------------------------------------------------------------- the two-pass definitions

  ghost function Total(runs: seq<Result>, f: Field): real
  {
    if runs == [] then 0.0 else Total(runs[..|runs| - 1], f) + Get(runs[|runs| - 1], f)
  }

  ghost function TotalSquares(runs: seq<Result>, f: Field): real
  {
    if runs == [] then 0.0
    else TotalSquares(runs[..|runs| - 1], f) + Square(Get(runs[|runs| - 1], f))
  }

  ghost function Mean(runs: seq<Result>, f: Field): real
    requires runs != []
  {
    Total(runs, f) / |runs| as real
  }

  /** The sum of the squared distances from `m`. */
  ghost function Deviation(runs: seq<Result>, f: Field, m: real): real
  {
    if runs == [] then 0.0
    else Deviation(runs[..|runs| - 1], f, m) + Square(Get(runs[|runs| - 1], f) - m)
  }

  /** The deviation from `m` in terms of the sum of squares, the sum and the number of the values. */
  ghost function Expanded(q: real, t: real, n: real, m: real): real
  {
    q - 2.0 * (m * t) + n * (m * m)
  }

  lemma ExpandedNext(q: real, t: real, n: real, m: real, x: real)
    ensures Expanded(q, t, n, m) + Square(x - m) == Expanded(q + Square(x), t + x, n + 1.0, m)
  {
    assert (x - m) * (x - m) == x * x - 2.0 * (m * x) + m * m;
    assert m * (t + x) == m * t + m * x;
    assert (n + 1.0) * (m * m) == n * (m * m) + m * m;
  }

  lemma ExpandedAtMean(q: real, t: real, n: real, m: real)
    requires n != 0.0 && n * m == t
    ensures m == t / n
    ensures Expanded(q, t, n, m) == q - n * (m * m)
  {
    assert m * t == n * (m * m);
  }

  lemma {:induction false} DeviationExpanded(runs: seq<Result>, f: Field, m: real)
    ensures Deviation(runs, f, m) == Expanded(TotalSquares(runs, f), Total(runs, f), |runs| as real, m)
  {
    if runs == [] {
    } else {
      hide Get, Square, Expanded;
      var n := |runs| - 1;
      DeviationExpanded(runs[..n], f, m);
      ExpandedNext(TotalSquares(runs[..n], f), Total(runs[..n], f), n as real, m, Get(runs[n], f));
    }
  }

  // ---------------------------------------------------------------- the online accumulation

  /** The state of the loop after `runs`, for one field. */
  ghost predicate Accumulated(runs: seq<Result>, f: Field, average: real, moment2: real)
  {
    var n := |runs| as real;
    && (runs != [] ==> n * average == Total(runs, f))
    && moment2 == TotalSquares(runs, f) - n * (average * average)
  }

  lemma WelfordAlgebra(n: real, a: real, b: real, x: real)
    requires (n + 1.0) * b == n * a + x
    ensures (x - a) * (x - b) == x * x - (n + 1.0) * (b * b) + n * (a * a)
  {
    assert x == (n + 1.0) * b - n * a;
    assert (x - a) * (x - b) == x * x - x * (a + b) + a * b;
    assert x * (a + b) == (n + 1.0) * (b * (a + b)) - n * (a * (a + b));
    assert b * (a + b) == a * b + b * b;
    assert a * (a + b) == a * a + a * b;
  }

  lemma Increment(n: real, a: real, x: real)
    requires n + 1.0 != 0.0
    ensures (n + 1.0) * (a + (x - a) / (n + 1.0)) == n * a + x
  {
    var d := (x - a) / (n + 1.0);
    assert (n + 1.0) * d == x - a;
    assert (n + 1.0) * (a + d) == (n + 1.0) * a + (n + 1.0) * d;
    assert (n + 1.0) * a == n * a + a;
  }

  /** One ACCUMULATE: the update of the average and the second moment by run number `n`. */
  method Accumulate(runs: seq<Result>, n: nat, f: Field, average: real, moment2: real) returns (a: real, m: real)
    requires n < |runs| && Accumulated(runs[..n], f, average, moment2)
    ensures Accumulated(runs[..n + 1], f, a, m)
  {
    var x := Get(runs[n], f);
    var deltaPre := x - average;
    a := average + deltaPre / (n + 1) as real;
    var deltaPost := x - a;
    m := moment2 + deltaPre * deltaPost;
    hide Get, Accumulated;
    Increment(n as real, average, x);
    AccumulatedNext(runs, n, f, average, moment2, a, m);
  }

  lemma TotalNext(runs: seq<Result>, n: nat, f: Field)
    requires n < |runs|
    ensures Total(runs[..n + 1], f) == Total(runs[..n], f) + Get(runs[n], f)
    ensures TotalSquares(runs[..n + 1], f) == TotalSquares(runs[..n], f) + Get(runs[n], f) * Get(runs[n], f)
  {
    hide Get;
    assert runs[..n + 1][..n] == runs[..n];
  }

  lemma AccumulatedNext(runs: seq<Result>, n: nat, f: Field, average: real, moment2: real, a: real, m: real)
    requires n < |runs| && Accumulated(runs[..n], f, average, moment2)
    requires (n as real + 1.0) * a == n as real * average + Get(runs[n], f)
    requires m == moment2 + (Get(runs[n], f) - average) * (Get(runs[n], f) - a)
    ensures Accumulated(runs[..n + 1], f, a, m)
  {
    hide Get, Total, TotalSquares;
    var x, t, q := Get(runs[n], f), Total(runs[..n], f), TotalSquares(runs[..n], f);
    TotalNext(runs, n, f);
    if n == 0 { NothingYet(runs[..n], f); }
    assert n as real * average == t;
    MomentNext(n as real, q, average, moment2, a, x);
    assert |runs[..n + 1]| as real == n as real + 1.0;
    assert q + x * x == TotalSquares(runs[..n + 1], f);
  }

  lemma MomentNext(n: real, q: real, average: real, moment2: real, a: real, x: real)
    requires moment2 == q - n * (average * average) && (n + 1.0) * a == n * average + x
    ensures moment2 + (x - average) * (x - a) == (q + x * x) - (n + 1.0) * (a * a)
  {
    WelfordAlgebra(n, average, a, x);
  }

  lemma NothingYet(runs: seq<Result>, f: Field)
    requires runs == []
    ensures Total(runs, f) == 0.0
  {
  }

  /** Three runs with initialisation times 1, 2 and 6. */
  lemma ExampleStatistics(a: Result, b: Result, c: Result)
    requires a.init.time == 1.0 && b.init.time == 2.0 && c.init.time == 6.0
    ensures Mean([a, b, c], InitTime) == 3.0 && Deviation([a, b, c], InitTime, 3.0) == 14.0
  {
    var runs := [a, b, c];
    assert runs[..0] == [] && runs[..1] == [a] && runs[..2] == [a, b] && runs[..2][..1] == runs[..1];
    assert Total(runs[..1], InitTime) == 1.0 && Total(runs[..2], InitTime) == 3.0 && Total(runs, InitTime) == 9.0;
    assert Deviation(runs[..1], InitTime, 3.0) == 4.0 && Deviation(runs[..2], InitTime, 3.0) == 5.0;
  }

  /** What the accumulation leaves: the mean and the sum of squared deviations from it. */
  lemma AccumulatedMeans(runs: seq<Result>, f: Field, average: real, moment2: real)
    requires runs != [] && Accumulated(runs, f, average, moment2)
    ensures average == Mean(runs, f)
    ensures moment2 == Deviation(runs, f, Mean(runs, f))
  {
    hide Get, Square, Total, TotalSquares, Deviation, Expanded;
    ExpandedAtMean(TotalSquares(runs, f), Total(runs, f), |runs| as real, average);
    DeviationExpanded(runs, f, average);
  }

  /** `Log`: the averages and the variances whose roots it prints, or nothing for fewer than two runs. */
  datatype Report = Nothing | Averages(average: Result, variance: Result)

  method Log(runs: seq<Result>) returns (report: Report)
    ensures report.Averages? <==> |runs| >= 2
    ensures report.Averages? ==> forall f: Field ::
              && Get(report.average, f) == Mean(runs, f)
              && Get(report.variance, f) == Deviation(runs, f, Mean(runs, f)) / |runs| as real
  {
    if |runs| < 2 {
      return Nothing;
    }
    var n := 0;
    var average := runs[0];
    var moment2 := Result(PhaseResult(0.0, 0.0, 0.0), PhaseResult(0.0, 0.0, 0.0));
    while n < |runs|
      invariant 0 <= n <= |runs|
      invariant n == 0 ==> average == runs[0]
      invariant forall f: Field :: Accumulated(runs[..n], f, Get(average, f), Get(moment2, f))
    {
      hide Accumulated;
      var it, im := Accumulate(runs, n, InitTime, Get(average, InitTime), Get(moment2, InitTime));
      var ir, jm := Accumulate(runs, n, InitRate, Get(average, InitRate), Get(moment2, InitRate));
      var ip, km := Accumulate(runs, n, InitPeriod, Get(average, InitPeriod), Get(moment2, InitPeriod));
      var rt, lm := Accumulate(runs, n, RunTime, Get(average, RunTime), Get(moment2, RunTime));
      var rr, mm := Accumulate(runs, n, RunRate, Get(average, RunRate), Get(moment2, RunRate));
      var rp, nm := Accumulate(runs, n, RunPeriod, Get(average, RunPeriod), Get(moment2, RunPeriod));
      average := Result(PhaseResult(it, ir, ip), PhaseResult(rt, rr, rp));
      moment2 := Result(PhaseResult(im, jm, km), PhaseResult(lm, mm, nm));
      n := n + 1;
    }
    assert runs[..n] == runs;
    forall f: Field ensures Get(average, f) == Mean(runs, f) && Get(moment2, f) == Deviation(runs, f, Mean(runs, f)) {
      AccumulatedMeans(runs, f, Get(average, f), Get(moment2, f));
    }
    var c := n as real;
    report := Averages(average,
                       Result(PhaseResult(moment2.init.time / c, moment2.init.rate / c, moment2.init.period / c),
                              PhaseResult(moment2.run.time / c, moment2.run.rate / c, moment2.run.period / c)));
  }

  // ---------------------------------------------------------------- order of the runs

  lemma {:induction false} TotalCut(runs: seq<Result>, k: nat, f: Field)
    requires k < |runs|
    ensures Total(runs, f) == Total(Cut(runs, k), f) + Get(runs[k], f)
    ensures TotalSquares(runs, f) == TotalSquares(Cut(runs, k), f) + Square(Get(runs[k], f))
    decreases |runs|
  {
    hide Get, Square;
    var n := |runs| - 1;
    if k == n {
      assert Cut(runs, k) == runs[..n];
    } else {
      TotalCut(runs[..n], k, f);
      assert Cut(runs, k)[..|Cut(runs, k)| - 1] == Cut(runs[..n], k);
      assert Cut(runs, k)[|Cut(runs, k)| - 1] == runs[n];
    }
  }

  lemma {:induction false} TotalsForgetOrder(a: seq<Result>, b: seq<Result>, f: Field)
    requires multiset(a) == multiset(b)
    ensures |a| == |b| && Total(a, f) == Total(b, f) && TotalSquares(a, f) == TotalSquares(b, f)
    decreases |a|
  {
    hide Get, Square;
    if a == [] {
      assert |multiset(b)| == 0;
    } else {
      var k := CutSame(a, b);
      TotalsForgetOrder(Cut(a, 0), Cut(b, k), f);
      TotalCut(a, 0, f);
      TotalCut(b, k, f);
    }
  }

  /** Neither the averages nor the deviations depend on the order of the runs. */
  lemma StatisticsForgetOrder(a: seq<Result>, b: seq<Result>, f: Field)
    requires a != [] && b != [] && multiset(a) == multiset(b)
    ensures Mean(a, f) == Mean(b, f)
    ensures Deviation(a, f, Mean(a, f)) == Deviation(b, f, Mean(b, f))
  {
    hide Get, Square, Total, TotalSquares, Deviation;
    TotalsForgetOrder(a, b, f);
    DeviationExpanded(a, f, Mean(a, f));
    DeviationExpanded(b, f, Mean(b, f));
  }
}
