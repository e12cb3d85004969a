/** How many steps a solve takes: n = round((xn - x0) / h) in script.js and
    n = int((xn - x0) / h) in main.py. */
module StepCount {
  import opened Options
  import opened Integrators
  import opened Reals

  /** JavaScript's `Math.round` on a finite value: the nearest integer, ties
      going up (towards +infinity). */
  function RoundHalfUp(r: real): (n: int)
    ensures (n as real) - 0.5 <= r < (n as real) + 0.5
  {
    (r + 0.5).Floor
  }

  /** Python's `int()` on a float: drop the fractional part, rounding towards zero. */
  function Truncate(r: real): (n: int)
    ensures 0.0 <= r ==> 0 <= n && (n as real) <= r < (n as real) + 1.0
    ensures r < 0.0 ==> n <= 0 && (n as real) - 1.0 < r <= (n as real)
  {
    if r >= 0.0 then r.Floor else -((-r).Floor)
  }

  /** The step count of copy `v`; `None` when h == 0, where the quotient is not a
      finite number (main.py raises ZeroDivisionError). */
  function Count(v: Variant, x0: real, xn: real, h: real): (r: Option<int>)
    ensures r.None? <==> h == 0.0
  {
    if h == 0.0 then None
    else
      var q := (xn - x0) / h;
      Some(if v == ScriptJs then RoundHalfUp(q) else Truncate(q))
  }

  /** On a non-negative ratio truncation is the floor. */
  lemma TruncateIsFloor(r: real)
    requires 0.0 <= r
    ensures Truncate(r) == r.Floor
  {
  }

  /** On a non-negative ratio main.py's count is script.js's count or one less. */
  lemma CountsDifferByAtMostOne(x0: real, xn: real, h: real)
    requires h != 0.0 && 0.0 <= (xn - x0) / h
    ensures Count(ScriptJs, x0, xn, h).Some? && Count(MainPy, x0, xn, h).Some?
    ensures var d := Count(ScriptJs, x0, xn, h).value - Count(MainPy, x0, xn, h).value; 0 <= d <= 1
  {
  }

  /** A ratio of 2.9 (x0 = 0, xn = 2.9, h = 1) gives three steps in script.js and two in main.py. */
  lemma CountsDifferAtTwoPointNine()
    ensures Count(ScriptJs, 0.0, 2.9, 1.0) == Some(3)
    ensures Count(MainPy, 0.0, 2.9, 1.0) == Some(2)
  {
  }

  /** `Math.round` sends halves up, `int()` sends them towards zero. */
  lemma RoundingOfHalves()
    ensures RoundHalfUp(2.5) == 3 && RoundHalfUp(-2.5) == -2
    ensures Truncate(2.5) == 2 && Truncate(-2.5) == -2
  {
  }

  /** For script.js's rounded count n, the point x0 + n*h lies within half a step
      of xn (it is the last grid point only when n >= 0; see `ScriptLastGridPoint`). */
  lemma ScriptEndpointWithinHalfStep(x0: real, xn: real, h: real)
    requires h != 0.0
    ensures Count(ScriptJs, x0, xn, h).Some?
    ensures var e := x0 + (Count(ScriptJs, x0, xn, h).value as real) * h - xn;
            -0.5 * Abs(h) <= e <= 0.5 * Abs(h)
  {
    var q := (xn - x0) / h;
    var n := RoundHalfUp(q);
    var e := x0 + (n as real) * h - xn;
    assert xn - x0 == q * h;
    assert e == ((n as real) - q) * h;
    var d := (n as real) - q;
    assert -0.5 < d <= 0.5;
    assert Count(ScriptJs, x0, xn, h) == Some(n);
    var a := Abs(h);
    MulNonNegative(0.5 - d, a);
    MulNonNegative(d + 0.5, a);
    assert e == d * h;
    assert d * h == d * a || d * h == -(d * a);
  }

  lemma MulNonNegative(a: real, b: real)
    requires 0.0 <= a && 0.0 <= b
    ensures 0.0 <= a * b
  {
  }

  /** The last grid point of the trajectory script.js computes, for any scheme:
      when (xn - x0)/h >= -1/2 the count is non-negative and the loop ends within
      half a step of xn; below that the count is negative, no step runs, and the
      trajectory is the single point x0. */
  lemma ScriptLastGridPoint(m: Method, f: Derivative, x0: real, y0: real, xn: real, h: real)
    requires h != 0.0
    ensures Count(ScriptJs, x0, xn, h).Some?
    ensures var n := StepsRun(Count(ScriptJs, x0, xn, h).value);
            var last := Solve(ScriptJs, m, f, x0, y0, h, n).xs[n];
            -0.5 <= (xn - x0) / h ==> -0.5 * Abs(h) <= last - xn <= 0.5 * Abs(h)
    ensures var n := StepsRun(Count(ScriptJs, x0, xn, h).value);
            (xn - x0) / h < -0.5 ==> n == 0 && Solve(ScriptJs, m, f, x0, y0, h, n).xs == [x0]
  {
    var q := (xn - x0) / h;
    var c := RoundHalfUp(q);
    assert Count(ScriptJs, x0, xn, h) == Some(c);
    ScriptEndpointWithinHalfStep(x0, xn, h);
    var n := StepsRun(c);
    var t := Solve(ScriptJs, m, f, x0, y0, h, n);
    SolveShape(ScriptJs, m, f, x0, y0, h, n);
    if -0.5 <= q {
      assert 0 <= c;
      assert n == c;
      assert t.xs[n] == x0 + (c as real) * h;
    } else {
      assert c < 0;
      assert n == 0;
      assert t.xs == [x0];
    }
  }
}
