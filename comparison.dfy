/** The comparison and error engine: run one scheme or all five on one grid,
    pick the reference curve, and measure absolute errors against it. */
module Comparison {
  import opened Options
  import opened Reals
  import opened Integrators
  import opened StepCount
  import opened Dispatch

  /** The compiled exact solution g(x), treated as a black box. */
  type ExactFunction = real -> real

  /** The schemes in the order the comparison runs (and lists) them; AIME is last. */
  const AllMethods: seq<Method> := [Euler, ImprovedEuler, ModifiedEuler, ImprovedModifiedEuler, Aime]

  /** One named entry of the results object. */
  datatype Run = Run(scheme: Method, traj: Trajectory)

  /** The results of all five schemes, the reference curve and whether it is exact. */
  datatype ComparisonResult = ComparisonResult(runs: seq<Run>, yRef: seq<real>, usesExact: bool)

  /** The result of single-method mode: the trajectory and, with an exact solution, its samples. */
  datatype SingleResult = SingleResult(scheme: Method, traj: Trajectory, yExact: Option<seq<real>>)

  /** Summary statistics of an error sequence. */
  datatype ErrorStats = ErrorStats(maxError: real, finalError: real, avgError: real)

  /** One curve of the error-comparison view. */
  datatype ErrorCurve = ErrorCurve(scheme: Method, xs: seq<real>, errors: seq<real>)

  // Sampling and errors

  /** `xs.map(x => g(x))`: the exact solution at every grid point. */
  function Sample(g: ExactFunction, xs: seq<real>): (r: seq<real>)
    ensures |r| == |xs|
    ensures forall i :: 0 <= i < |xs| ==> r[i] == g(xs[i])
  {
    if xs == [] then [] else [g(xs[0])] + Sample(g, xs[1..])
  }

  /** The reference curve: the exact solution sampled on AIME's grid, or else
      AIME's own estimates. */
  function Reference(aime: Trajectory, exact: Option<ExactFunction>): (yRef: seq<real>)
    ensures |aime.xs| == |aime.ys| ==> |yRef| == |aime.ys|
    ensures exact.Some? ==> |yRef| == |aime.xs| && forall i :: 0 <= i < |aime.xs| ==> yRef[i] == exact.value(aime.xs[i])
    ensures exact.None? ==> yRef == aime.ys
  {
    match exact
    case Some(g) => Sample(g, aime.xs)
    case None => aime.ys
  }

  /** Element-wise absolute differences |ys[i] - ref[i]|. */
  function AbsErrors(ys: seq<real>, ref: seq<real>): (e: seq<real>)
    requires |ys| == |ref|
    ensures |e| == |ys|
    ensures forall i :: 0 <= i < |ys| ==> e[i] == Abs(ys[i] - ref[i])
    ensures forall i :: 0 <= i < |ys| ==> 0.0 <= e[i] && (e[i] == 0.0 <==> ys[i] == ref[i])
  {
    if ys == [] then [] else [Abs(ys[0] - ref[0])] + AbsErrors(ys[1..], ref[1..])
  }

  /** A curve measured against itself has no error anywhere. */
  lemma SelfErrorIsZero(ys: seq<real>)
    ensures forall i :: 0 <= i < |ys| ==> AbsErrors(ys, ys)[i] == 0.0
  {
  }

  // Error statistics

  /** `Math.max(...s)`. */
  function MaxOf(s: seq<real>): (m: real)
    requires |s| > 0
    ensures m in s
    ensures forall i :: 0 <= i < |s| ==> s[i] <= m
  {
    if |s| == 1 then s[0]
    else
      var rest := MaxOf(s[1..]);
      if s[0] >= rest then s[0] else rest
  }

  /** `s.reduce((a, b) => a + b, 0)`, a left fold. */
  function Sum(s: seq<real>): real
  {
    if s == [] then 0.0 else Sum(s[..|s| - 1]) + s[|s| - 1]
  }

  /** A sum of non-negative terms each at most b lies between 0 and |s|*b. */
  lemma {:induction false} SumBounds(s: seq<real>, b: real)
    requires forall i :: 0 <= i < |s| ==> 0.0 <= s[i] <= b
    ensures 0.0 <= Sum(s) <= (|s| as real) * b
  {
    if s != [] {
      SumBounds(s[..|s| - 1], b);
      assert ((|s| - 1) as real) * b + b == (|s| as real) * b;
    }
  }

  /** The total of a concatenation is the sum of the totals: the fold's order of
      grouping does not matter. */
  lemma {:induction false} SumAppend(a: seq<real>, b: seq<real>)
    ensures Sum(a + b) == Sum(a) + Sum(b)
    decreases |b|
  {
    if b == [] {
      assert a + b == a;
    } else {
      var b' := b[..|b| - 1];
      assert (a + b)[..|a + b| - 1] == a + b';
      assert (a + b)[|a + b| - 1] == b[|b| - 1];
      SumAppend(a, b');
      assert Sum(a + b) == Sum(a + b') + b[|b| - 1];
    }
  }

  /** n terms all equal to c add up to n*c. */
  lemma {:induction false} SumOfConstant(s: seq<real>, c: real)
    requires forall i :: 0 <= i < |s| ==> s[i] == c
    ensures Sum(s) == (|s| as real) * c
  {
    if s != [] {
      SumOfConstant(s[..|s| - 1], c);
      assert ((|s| - 1) as real) * c + c == (|s| as real) * c;
    }
  }

  /** Maximum, final and average error: the statistics of displayErrorAnalysis. */
  function Summarize(errors: seq<real>): (st: ErrorStats)
    requires |errors| > 0
    ensures st.finalError == errors[|errors| - 1]
    ensures st.maxError in errors && forall i :: 0 <= i < |errors| ==> errors[i] <= st.maxError
    ensures st.avgError == Sum(errors) / (|errors| as real)
    ensures (forall i :: 0 <= i < |errors| ==> 0.0 <= errors[i]) ==> 0.0 <= st.avgError <= st.maxError
  {
    var mx := MaxOf(errors);
    var avg := Sum(errors) / (|errors| as real);
    AverageOfNonNegative(errors, mx);
    ErrorStats(mx, errors[|errors| - 1], avg)
  }

  /** A constant error curve has that constant as its maximum, final and average error. */
  lemma ConstantErrorStats(errors: seq<real>, c: real)
    requires |errors| > 0 && forall i :: 0 <= i < |errors| ==> errors[i] == c
    ensures Summarize(errors) == ErrorStats(c, c, c)
  {
    SumOfConstant(errors, c);
    assert Sum(errors) / (|errors| as real) == c;
  }

  /** When no error is negative, their mean lies between 0 and any bound on them. */
  lemma AverageOfNonNegative(errors: seq<real>, mx: real)
    requires |errors| > 0 && forall i :: 0 <= i < |errors| ==> errors[i] <= mx
    ensures (forall i :: 0 <= i < |errors| ==> 0.0 <= errors[i]) ==>
              0.0 <= Sum(errors) / (|errors| as real) <= mx
  {
    if forall i :: 0 <= i < |errors| ==> 0.0 <= errors[i] {
      SumBounds(errors, mx);
      AverageBounds(Sum(errors), |errors| as real, mx);
    }
  }

  lemma AverageBounds(total: real, len: real, mx: real)
    requires 0.0 < len && 0.0 <= total <= len * mx
    ensures 0.0 <= total / len <= mx
  {
    var a := total / len;
    assert a * len == total;
    assert (mx - a) * len >= 0.0;
    MulPositiveFactor(mx - a, len);
  }

  lemma MulPositiveFactor(a: real, b: real)
    requires 0.0 < b && 0.0 <= a * b
    ensures 0.0 <= a
  {
  }

  /** The error analysis of single-method mode: |y[i] - yExact[i]| at every
      grid point, then its statistics. */
  function ErrorAnalysis(t: Trajectory, yExact: seq<real>): (st: ErrorStats)
    requires |t.xs| == |t.ys| == |yExact| && |t.ys| > 0
    ensures st.finalError == Abs(t.ys[|t.ys| - 1] - yExact[|yExact| - 1])
    ensures forall i :: 0 <= i < |t.ys| ==> Abs(t.ys[i] - yExact[i]) <= st.maxError
    ensures st.maxError in AbsErrors(t.ys, yExact)
    ensures st.avgError == Sum(AbsErrors(t.ys, yExact)) / (|t.ys| as real)
    ensures 0.0 <= st.avgError <= st.maxError
  {
    Summarize(AbsErrors(t.ys, yExact))
  }

  // Single-method mode

  /** solveODE: count the steps, look the method up, integrate, and sample the
      exact solution on the grid when there is one. `None` when the name is not
      a key (calling `undefined` throws) or when h == 0. */
  method SolveOne(name: string, f: Derivative, x0: real, y0: real, xn: real, h: real,
                  exact: Option<ExactFunction>)
    returns (r: Option<SingleResult>)
    ensures r.None? <==> GetMethod(name).None? || h == 0.0
    ensures r.Some? ==>
              var m := GetMethod(name).value;
              var n := StepsRun(Count(ScriptJs, x0, xn, h).value);
              && r.value.scheme == m
              && r.value.traj == Solve(ScriptJs, m, f, x0, y0, h, n)
              && (exact.None? ==> r.value.yExact.None?)
              && (exact.Some? ==> r.value.yExact == Some(Sample(exact.value, r.value.traj.xs)))
  {
    var count := Count(ScriptJs, x0, xn, h);
    var found := GetMethod(name);
    if count.None? || found.None? {
      return None;
    }
    var xs, ys := Integrate(ScriptJs, found.value, f, x0, y0, h, count.value);
    var yExact: Option<seq<real>> := None;
    if exact.Some? {
      yExact := Some(Sample(exact.value, xs));
    }
    r := Some(SingleResult(found.value, Trajectory(xs, ys), yExact));
  }

  /** A single-method result with exact samples always admits the error analysis. */
  lemma SingleResultAnalysable(name: string, f: Derivative, x0: real, y0: real, xn: real, h: real,
                               g: ExactFunction, m: Method, t: Trajectory, yExact: seq<real>)
    requires GetMethod(name) == Some(m) && h != 0.0
    requires t == Solve(ScriptJs, m, f, x0, y0, h, StepsRun(Count(ScriptJs, x0, xn, h).value))
    requires yExact == Sample(g, t.xs)
    ensures |t.xs| == |t.ys| == |yExact| && |t.ys| > 0
  {
    SolveShape(ScriptJs, m, f, x0, y0, h, StepsRun(Count(ScriptJs, x0, xn, h).value));
  }

  /** x0 == xn gives the single point (x0, y0); with exact(x0) == y0 every statistic is zero. */
  lemma SinglePointZeroError(m: Method, f: Derivative, x0: real, y0: real, h: real, g: ExactFunction)
    requires h != 0.0 && g(x0) == y0
    ensures Count(ScriptJs, x0, x0, h) == Some(0)
    ensures Solve(ScriptJs, m, f, x0, y0, h, 0) == Trajectory([x0], [y0])
    ensures ErrorAnalysis(Trajectory([x0], [y0]), Sample(g, [x0])) == ErrorStats(0.0, 0.0, 0.0)
  {
    var e := AbsErrors([y0], Sample(g, [x0]));
    assert e == [0.0];
    assert Sum(e) == 0.0 by {
      assert e[..0] == [];
    }
  }

  // All-methods mode

  /** What compareAllMethods (script.js) and the results loop of main.py compute:
      the same step count for all five schemes, in the fixed order, and the
      reference curve taken from AIME. */
  ghost predicate IsComparison(v: Variant, f: Derivative, x0: real, y0: real, xn: real, h: real,
                               exact: Option<ExactFunction>, r: ComparisonResult)
  {
    && h != 0.0
    && var n := StepsRun(Count(v, x0, xn, h).value);
    && |r.runs| == |AllMethods|
    && (forall k :: 0 <= k < |AllMethods| ==>
          r.runs[k] == Run(AllMethods[k], Solve(v, AllMethods[k], f, x0, y0, h, n)))
    && r.yRef == Reference(Solve(v, Aime, f, x0, y0, h, n), exact)
    && r.usesExact == exact.Some?
  }

  /** Runs every scheme on one step count and builds the reference curve from
      the AIME entry. `None` when h == 0. */
  method CompareAll(v: Variant, f: Derivative, x0: real, y0: real, xn: real, h: real,
                    exact: Option<ExactFunction>)
    returns (r: Option<ComparisonResult>)
    ensures r.None? <==> h == 0.0
    ensures r.Some? ==> IsComparison(v, f, x0, y0, xn, h, exact, r.value)
  {
    var count := Count(v, x0, xn, h);
    if count.None? {
      return None;
    }
    var n := count.value;
    var runs: seq<Run> := [];
    var k := 0;
    while k < |AllMethods|
      invariant 0 <= k <= |AllMethods|
      invariant |runs| == k
      invariant forall j :: 0 <= j < k ==>
                  runs[j] == Run(AllMethods[j], Solve(v, AllMethods[j], f, x0, y0, h, StepsRun(n)))
    {
      var xs, ys := Integrate(v, AllMethods[k], f, x0, y0, h, n);
      runs := runs + [Run(AllMethods[k], Trajectory(xs, ys))];
      k := k + 1;
    }
    var aime := runs[|runs| - 1].traj;
    r := Some(ComparisonResult(runs, Reference(aime, exact), exact.Some?));
  }

  /** All five trajectories share one grid of max(n, 0) + 1 points, and the
      reference curve is as long as each of them. */
  lemma ComparisonShape(v: Variant, f: Derivative, x0: real, y0: real, xn: real, h: real,
                        exact: Option<ExactFunction>, r: ComparisonResult, j: nat, k: nat)
    requires IsComparison(v, f, x0, y0, xn, h, exact, r)
    requires j < |r.runs| && k < |r.runs|
    ensures r.runs[j].traj.xs == r.runs[k].traj.xs
    ensures |r.runs[j].traj.xs| == |r.runs[j].traj.ys| == |r.yRef| == StepsRun(Count(v, x0, xn, h).value) + 1
  {
    var n := StepsRun(Count(v, x0, xn, h).value);
    SharedGrid(v, AllMethods[j], f, y0, v, AllMethods[k], f, y0, x0, h, n);
    SolveShape(v, AllMethods[j], f, x0, y0, h, n);
    SolveShape(v, Aime, f, x0, y0, h, n);
  }

  /** Without an exact solution the reference is AIME itself, so AIME's error is zero everywhere. */
  lemma AimeSelfError(v: Variant, f: Derivative, x0: real, y0: real, xn: real, h: real, r: ComparisonResult)
    requires IsComparison(v, f, x0, y0, xn, h, None, r)
    ensures r.runs[4].scheme == Aime && r.yRef == r.runs[4].traj.ys
    ensures !r.usesExact
  {
  }

  // The error-comparison view

  /** script.js leaves AIME out of the error view when it is the reference; main.py never does. */
  predicate Skipped(v: Variant, hasExact: bool, m: Method)
  {
    v == ScriptJs && !hasExact && m == Aime
  }

  predicate SameLengths(runs: seq<Run>, yRef: seq<real>)
  {
    forall k :: 0 <= k < |runs| ==> |runs[k].traj.ys| == |yRef|
  }

  /** The error curves for `runs`, in order, skipping those `Skipped` names. */
  function Curves(v: Variant, runs: seq<Run>, yRef: seq<real>, hasExact: bool): (r: seq<ErrorCurve>)
    requires SameLengths(runs, yRef)
    ensures |r| <= |runs|
    ensures forall k :: 0 <= k < |r| ==> !Skipped(v, hasExact, r[k].scheme) && |r[k].errors| == |yRef|
  {
    if runs == [] then []
    else
      var init := Curves(v, runs[..|runs| - 1], yRef, hasExact);
      var last := runs[|runs| - 1];
      if Skipped(v, hasExact, last.scheme) then init
      else init + [ErrorCurve(last.scheme, last.traj.xs, AbsErrors(last.traj.ys, yRef))]
  }

  /** The loop of plotErrorComparison (script.js) and of the error plot in main.py. */
  method ErrorComparison(v: Variant, runs: seq<Run>, yRef: seq<real>, hasExact: bool)
    returns (curves: seq<ErrorCurve>)
    requires SameLengths(runs, yRef)
    ensures curves == Curves(v, runs, yRef, hasExact)
  {
    curves := [];
    var k := 0;
    while k < |runs|
      invariant 0 <= k <= |runs|
      invariant curves == Curves(v, runs[..k], yRef, hasExact)
    {
      assert runs[..k + 1][..k] == runs[..k];
      var run := runs[k];
      if !Skipped(v, hasExact, run.scheme) {
        var errors := AbsErrors(run.traj.ys, yRef);
        curves := curves + [ErrorCurve(run.scheme, run.traj.xs, errors)];
      }
      k := k + 1;
    }
    assert runs[..|runs|] == runs;
  }

  /** With nothing skipped there is one curve per run, in the same order. */
  lemma {:induction false} CurvesWithoutSkips(v: Variant, runs: seq<Run>, yRef: seq<real>, hasExact: bool)
    requires SameLengths(runs, yRef)
    requires forall k :: 0 <= k < |runs| ==> !Skipped(v, hasExact, runs[k].scheme)
    ensures |Curves(v, runs, yRef, hasExact)| == |runs|
    ensures forall k :: 0 <= k < |runs| ==>
              Curves(v, runs, yRef, hasExact)[k]
              == ErrorCurve(runs[k].scheme, runs[k].traj.xs, AbsErrors(runs[k].traj.ys, yRef))
  {
    if runs != [] {
      var front := runs[..|runs| - 1];
      var last := runs[|runs| - 1];
      CurvesWithoutSkips(v, front, yRef, hasExact);
      assert !Skipped(v, hasExact, last.scheme);
      assert Curves(v, runs, yRef, hasExact)
             == Curves(v, front, yRef, hasExact) + [ErrorCurve(last.scheme, last.traj.xs, AbsErrors(last.traj.ys, yRef))];
    }
  }

  /** The error view of a comparison: main.py, and script.js with an exact
      solution, show all five schemes; script.js without one shows the first
      four and leaves out AIME. */
  lemma ErrorView(v: Variant, f: Derivative, x0: real, y0: real, xn: real, h: real,
                  exact: Option<ExactFunction>, r: ComparisonResult)
    requires IsComparison(v, f, x0, y0, xn, h, exact, r)
    ensures SameLengths(r.runs, r.yRef)
    ensures Skipped(v, r.usesExact, Aime) ==>
              Curves(v, r.runs, r.yRef, r.usesExact) == Curves(v, r.runs[..4], r.yRef, r.usesExact)
              && |Curves(v, r.runs, r.yRef, r.usesExact)| == 4
    ensures !Skipped(v, r.usesExact, Aime) ==> |Curves(v, r.runs, r.yRef, r.usesExact)| == 5
    ensures forall k :: 0 <= k < |Curves(v, r.runs, r.yRef, r.usesExact)| ==>
              var c := Curves(v, r.runs, r.yRef, r.usesExact)[k];
              c == ErrorCurve(r.runs[k].scheme, r.runs[k].traj.xs, AbsErrors(r.runs[k].traj.ys, r.yRef))
              && !Skipped(v, r.usesExact, c.scheme)
  {
    forall k | 0 <= k < |r.runs| ensures |r.runs[k].traj.ys| == |r.yRef| {
      ComparisonShape(v, f, x0, y0, xn, h, exact, r, k, k);
    }
    var hasExact := r.usesExact;
    var front := r.runs[..4];
    assert forall k :: 0 <= k < 4 ==> front[k].scheme == AllMethods[k];
    CurvesWithoutSkips(v, front, r.yRef, hasExact);
    if !Skipped(v, hasExact, Aime) {
      CurvesWithoutSkips(v, r.runs, r.yRef, hasExact);
    }
  }

  /** main.py without an exact solution still draws AIME's curve, and it is zero everywhere. */
  lemma PythonAimeCurveIsZero(f: Derivative, x0: real, y0: real, xn: real, h: real, r: ComparisonResult)
    requires IsComparison(MainPy, f, x0, y0, xn, h, None, r)
    ensures SameLengths(r.runs, r.yRef)
    ensures |Curves(MainPy, r.runs, r.yRef, false)| == 5
    ensures Curves(MainPy, r.runs, r.yRef, false)[4].scheme == Aime
    ensures forall i :: 0 <= i < |Curves(MainPy, r.runs, r.yRef, false)[4].errors| ==>
              Curves(MainPy, r.runs, r.yRef, false)[4].errors[i] == 0.0
  {
    ErrorView(MainPy, f, x0, y0, xn, h, None, r);
    SelfErrorIsZero(r.runs[4].traj.ys);
  }
}
