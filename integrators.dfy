/** The integrator library: five explicit fixed-step schemes for y' = f(x, y).
    The repository carries two copies of it (script.js and main.py), each
    transcribed here as written; they agree on every scheme except AIME, so
    `Step` takes the copy as a parameter. */
module Integrators {

  /** Which copy of the library a definition follows. */
  datatype Variant = ScriptJs | MainPy

  /** The five schemes, in the order the comparison view runs them. */
  datatype Method = Euler | ImprovedEuler | ModifiedEuler | ImprovedModifiedEuler | Aime

  /** The compiled right-hand side f(x, y), treated as a black box. */
  type Derivative = (real, real) -> real

  /** A discretised solution: grid points `xs` and estimates `ys`, index-aligned. */
  datatype Trajectory = Trajectory(xs: seq<real>, ys: seq<real>)

  // The update rules as script.js writes them (script.js:16, 30-32, 46-47, 64-67, 82-85).

  /** Euler: y + h*f(x, y). */
  function EulerStep(f: Derivative, x: real, y: real, h: real): real
  {
    y + h * f(x, y)
  }

  /** Improved Euler (Heun): the average of the slopes at both ends of an Euler step. */
  function ImprovedEulerStep(f: Derivative, x: real, y: real, h: real): real
  {
    var k1 := f(x, y);
    var k2 := f(x + h, y + h * k1);
    y + (h / 2.0) * (k1 + k2)
  }

  /** Modified Euler (midpoint): the slope at a half Euler step. */
  function ModifiedEulerStep(f: Derivative, x: real, y: real, h: real): real
  {
    var yMid := y + (h / 2.0) * f(x, y);
    y + h * f(x + h / 2.0, yMid)
  }

  /** Improved modified Euler: three evaluations, one nested in another's argument. */
  function ImprovedModifiedEulerStep(f: Derivative, x: real, y: real, h: real): real
  {
    var k1 := f(x, y);
    var yInner := y + h * k1;
    var k2 := f(x + h / 2.0, y + (h / 2.0) * f(x, yInner));
    y + h * k2
  }

  /** AIME as script.js writes it: three stages, the second one at x itself. */
  function AimeStepJs(f: Derivative, x: real, y: real, h: real): real
  {
    var k1 := f(x, y);
    var k2 := f(x, y + (h / 2.0) * k1);
    var k3 := f(x + h / 2.0, y + (h / 2.0) * k2);
    y + h * k3
  }

  // The update rules as main.py writes them (main.py:9, 16-18, 25-26, 33-35, 42-43).

  /** `euler`: y + h*f(x, y). */
  function EulerStepPy(f: Derivative, x: real, y: real, h: real): real
  {
    y + h * f(x, y)
  }

  /** `improved_euler`: k1 at the start, k2 at the end of an Euler step, averaged. */
  function ImprovedEulerStepPy(f: Derivative, x: real, y: real, h: real): real
  {
    var k1 := f(x, y);
    var k2 := f(x + h, y + h * k1);
    y + (h / 2.0) * (k1 + k2)
  }

  /** `modified_euler`: the slope at the midpoint y_mid. */
  function ModifiedEulerStepPy(f: Derivative, x: real, y: real, h: real): real
  {
    var yMid := y + (h / 2.0) * f(x, y);
    y + h * f(x + h / 2.0, yMid)
  }

  /** `improved_modified_euler`: y_inner by a full Euler step, y_mid from the slope there. */
  function ImprovedModifiedEulerStepPy(f: Derivative, x: real, y: real, h: real): real
  {
    var yInner := y + h * f(x, y);
    var yMid := y + (h / 2.0) * f(x, yInner);
    y + h * f(x + h / 2.0, yMid)
  }

  /** `aime`: two stages through y_half. */
  function AimeStepPy(f: Derivative, x: real, y: real, h: real): real
  {
    var yHalf := y + (h / 2.0) * f(x, y);
    y + h * f(x + h / 2.0, yHalf)
  }

  /** One update y[i] -> y[i+1] of scheme `m` at the point (x, y), as the copy `v`
      writes it. The stage expressions are kept exactly, not simplified. */
  function Step(v: Variant, m: Method, f: Derivative, x: real, y: real, h: real): real
  {
    match m
    case Euler => if v == ScriptJs then EulerStep(f, x, y, h) else EulerStepPy(f, x, y, h)
    case ImprovedEuler => if v == ScriptJs then ImprovedEulerStep(f, x, y, h) else ImprovedEulerStepPy(f, x, y, h)
    case ModifiedEuler => if v == ScriptJs then ModifiedEulerStep(f, x, y, h) else ModifiedEulerStepPy(f, x, y, h)
    case ImprovedModifiedEuler =>
      if v == ScriptJs then ImprovedModifiedEulerStep(f, x, y, h) else ImprovedModifiedEulerStepPy(f, x, y, h)
    case Aime => if v == ScriptJs then AimeStepJs(f, x, y, h) else AimeStepPy(f, x, y, h)
  }

  /** Every scheme is consistent: on a constant right-hand side one step adds h times it. */
  lemma StepOfConstant(v: Variant, m: Method, f: Derivative, c: real, x: real, y: real, h: real)
    requires forall a, b :: f(a, b) == c
    ensures Step(v, m, f, x, y, h) == y + h * c
  {
  }

  /** Only AIME tells the two copies apart. */
  lemma StepCopiesAgree(m: Method, f: Derivative, x: real, y: real, h: real)
    requires m != Aime
    ensures Step(ScriptJs, m, f, x, y, h) == Step(MainPy, m, f, x, y, h)
  {
  }

  /** In main.py `aime` and `modified_euler` have the same update rule. */
  lemma PythonAimeStep(f: Derivative, x: real, y: real, h: real)
    ensures Step(MainPy, Aime, f, x, y, h) == Step(MainPy, ModifiedEuler, f, x, y, h)
  {
  }

  /** The number of loop iterations `for (i = 0; i < n; i++)` and `range(n)` perform. */
  function StepsRun(n: int): (k: nat)
    ensures n <= 0 ==> k == 0
    ensures n >= 0 ==> k == n
  {
    if n < 0 then 0 else n
  }

  /** One update of the y-value from the point (x, y); the step size is fixed. */
  type Stepper = (real, real) -> real

  /** The update rule of scheme `m` in copy `v` for the fixed f and h. */
  function StepperOf(v: Variant, m: Method, f: Derivative, h: real): Stepper
  {
    (x, y) => Step(v, m, f, x, y, h)
  }

  /** The skeleton all five schemes share: start at (x0, y0); n times append
      x[i] + h and step(x[i], y[i]). */
  function Iterate(step: Stepper, x0: real, y0: real, h: real, n: nat): (t: Trajectory)
    ensures |t.xs| == n + 1 && |t.ys| == n + 1
    ensures t.xs[0] == x0 && t.ys[0] == y0
    decreases n
  {
    if n == 0 then
      Trajectory([x0], [y0])
    else
      var t := Iterate(step, x0, y0, h, n - 1);
      var x, y := t.xs[n - 1], t.ys[n - 1];
      Trajectory(t.xs + [x + h], t.ys + [step(x, y)])
  }

  /** The trajectory of scheme `m` (copy `v`) after n steps. */
  function Solve(v: Variant, m: Method, f: Derivative, x0: real, y0: real, h: real, n: nat): (t: Trajectory)
    ensures |t.xs| == n + 1 && |t.ys| == n + 1
    ensures t.xs[0] == x0 && t.ys[0] == y0
  {
    Iterate(StepperOf(v, m, f, h), x0, y0, h, n)
  }

  /** The integrator loop shared by `euler`, `improvedEuler`, `modifiedEuler`,
      `improvedModifiedEuler` and `aime` (and their Python twins): it pushes
      x[i] + h and the scheme's y[i+1] once per iteration. */
  method Integrate(v: Variant, m: Method, f: Derivative, x0: real, y0: real, h: real, n: int)
    returns (xs: seq<real>, ys: seq<real>)
    ensures Trajectory(xs, ys) == Solve(v, m, f, x0, y0, h, StepsRun(n))
    ensures |xs| == |ys| == StepsRun(n) + 1
    ensures n <= 0 ==> xs == [x0] && ys == [y0]
  {
    xs, ys := [x0], [y0];
    var i := 0;
    while i < n
      invariant 0 <= i <= StepsRun(n)
      invariant Trajectory(xs, ys) == Solve(v, m, f, x0, y0, h, i)
    {
      var yNext := Step(v, m, f, xs[i], ys[i], h);
      var xNext := xs[i] + h;
      xs := xs + [xNext];
      ys := ys + [yNext];
      i := i + 1;
    }
  }

  /** Each point is computed from the one before it and from nothing else. */
  lemma {:induction false} IterateStep(step: Stepper, x0: real, y0: real, h: real, n: nat, i: nat)
    requires i < n
    ensures Iterate(step, x0, y0, h, n).xs[i + 1] == Iterate(step, x0, y0, h, n).xs[i] + h
    ensures Iterate(step, x0, y0, h, n).ys[i + 1]
            == step(Iterate(step, x0, y0, h, n).xs[i], Iterate(step, x0, y0, h, n).ys[i])
  {
    if i < n - 1 {
      IterateStep(step, x0, y0, h, n - 1, i);
    }
  }

  /** The recurrence fixes the trajectory: any pair of sequences that starts at
      (x0, y0), advances x by h and y by `step` is the one `Iterate` builds. */
  lemma {:induction false} IterateUnique(step: Stepper, x0: real, y0: real, h: real, n: nat, t: Trajectory)
    requires |t.xs| == n + 1 && |t.ys| == n + 1
    requires t.xs[0] == x0 && t.ys[0] == y0
    requires forall i :: 0 <= i < n ==> t.xs[i + 1] == t.xs[i] + h
    requires forall i :: 0 <= i < n ==> t.ys[i + 1] == step(t.xs[i], t.ys[i])
    ensures t == Iterate(step, x0, y0, h, n)
  {
    if n > 0 {
      var p := Trajectory(t.xs[..n], t.ys[..n]);
      IterateUnique(step, x0, y0, h, n - 1, p);
      assert t.xs == p.xs + [p.xs[n - 1] + h];
      assert t.ys == p.ys + [step(p.xs[n - 1], p.ys[n - 1])];
    }
  }

  /** A shorter run is a prefix of a longer one: the n+1-step trajectory is the
      n-step one extended by one point. */
  lemma IteratePrefix(step: Stepper, x0: real, y0: real, h: real, k: nat, n: nat)
    requires k <= n
    ensures Iterate(step, x0, y0, h, k).xs == Iterate(step, x0, y0, h, n).xs[..k + 1]
    ensures Iterate(step, x0, y0, h, k).ys == Iterate(step, x0, y0, h, n).ys[..k + 1]
  {
    var t := Iterate(step, x0, y0, h, n);
    var p := Trajectory(t.xs[..k + 1], t.ys[..k + 1]);
    forall i | 0 <= i < k
      ensures p.xs[i + 1] == p.xs[i] + h
      ensures p.ys[i + 1] == step(p.xs[i], p.ys[i])
    {
      IterateStep(step, x0, y0, h, n, i);
    }
    IterateUnique(step, x0, y0, h, k, p);
  }

  lemma OneMoreStep(k: nat, d: real)
    ensures (k as real) * d + d == ((k + 1) as real) * d
  {
  }

  /** The grid is x[i] = x0 + i*h, whatever the rule computes for y. */
  lemma {:induction false} IterateGrid(step: Stepper, x0: real, y0: real, h: real, n: nat, i: nat)
    requires i <= n
    ensures Iterate(step, x0, y0, h, n).xs[i] == x0 + (i as real) * h
  {
    if i < n {
      IteratePrefix(step, x0, y0, h, n - 1, n);
      IterateGrid(step, x0, y0, h, n - 1, i);
    } else if n > 0 {
      IterateGrid(step, x0, y0, h, n - 1, n - 1);
      OneMoreStep(n - 1, h);
    }
  }

  /** The grid depends only on x0, h and n: not on the update rule or on y0. */
  lemma {:induction false} IterateSharedGrid(s1: Stepper, y1: real, s2: Stepper, y2: real, x0: real, h: real, n: nat)
    ensures Iterate(s1, x0, y1, h, n).xs == Iterate(s2, x0, y2, h, n).xs
  {
    if n > 0 {
      IterateSharedGrid(s1, y1, s2, y2, x0, h, n - 1);
    }
  }

  /** Two rules that agree everywhere give the same trajectory. */
  lemma {:induction false} IterateSameRule(s1: Stepper, s2: Stepper, x0: real, y0: real, h: real, n: nat)
    requires forall x, y :: s1(x, y) == s2(x, y)
    ensures Iterate(s1, x0, y0, h, n) == Iterate(s2, x0, y0, h, n)
  {
    if n > 0 {
      IterateSameRule(s1, s2, x0, y0, h, n - 1);
    }
  }

  /** A rule that adds the constant d to y gives y[i] = y0 + i*d. */
  lemma {:induction false} IterateConstantIncrement(step: Stepper, d: real, x0: real, y0: real, h: real, n: nat, i: nat)
    requires forall x, y :: step(x, y) == y + d
    requires i <= n
    ensures Iterate(step, x0, y0, h, n).ys[i] == y0 + (i as real) * d
  {
    if i < n {
      IteratePrefix(step, x0, y0, h, n - 1, n);
      IterateConstantIncrement(step, d, x0, y0, h, n - 1, i);
    } else if n > 0 {
      IterateConstantIncrement(step, d, x0, y0, h, n - 1, n - 1);
      OneMoreStep(n - 1, d);
    }
  }

  // Properties of the schemes' trajectories.

  /** Shape: n+1 points starting at (x0, y0) on the grid x[i] = x0 + i*h, with
      x[i+1] = x[i] + h and y[i+1] computed by the scheme from (x[i], y[i]). */
  lemma SolveShape(v: Variant, m: Method, f: Derivative, x0: real, y0: real, h: real, n: nat)
    ensures |Solve(v, m, f, x0, y0, h, n).xs| == n + 1 && |Solve(v, m, f, x0, y0, h, n).ys| == n + 1
    ensures Solve(v, m, f, x0, y0, h, n).xs[0] == x0 && Solve(v, m, f, x0, y0, h, n).ys[0] == y0
    ensures forall i :: 0 <= i <= n ==> Solve(v, m, f, x0, y0, h, n).xs[i] == x0 + (i as real) * h
    ensures forall i :: 0 <= i < n ==>
              Solve(v, m, f, x0, y0, h, n).xs[i + 1] == Solve(v, m, f, x0, y0, h, n).xs[i] + h &&
              Solve(v, m, f, x0, y0, h, n).ys[i + 1]
              == Step(v, m, f, Solve(v, m, f, x0, y0, h, n).xs[i], Solve(v, m, f, x0, y0, h, n).ys[i], h)
  {
    var step := StepperOf(v, m, f, h);
    forall i | 0 <= i <= n ensures Iterate(step, x0, y0, h, n).xs[i] == x0 + (i as real) * h {
      IterateGrid(step, x0, y0, h, n, i);
    }
    forall i | 0 <= i < n
      ensures Iterate(step, x0, y0, h, n).xs[i + 1] == Iterate(step, x0, y0, h, n).xs[i] + h
      ensures Iterate(step, x0, y0, h, n).ys[i + 1]
              == Step(v, m, f, Iterate(step, x0, y0, h, n).xs[i], Iterate(step, x0, y0, h, n).ys[i], h)
    {
      IterateStep(step, x0, y0, h, n, i);
    }
  }

  /** Prefix: running k <= n steps gives the first k+1 points of the n-step run. */
  lemma SolvePrefix(v: Variant, m: Method, f: Derivative, x0: real, y0: real, h: real, k: nat, n: nat)
    requires k <= n
    ensures Solve(v, m, f, x0, y0, h, k).xs == Solve(v, m, f, x0, y0, h, n).xs[..k + 1]
    ensures Solve(v, m, f, x0, y0, h, k).ys == Solve(v, m, f, x0, y0, h, n).ys[..k + 1]
  {
    IteratePrefix(StepperOf(v, m, f, h), x0, y0, h, k, n);
  }

  /** Shared grid: every scheme of either copy, from any y0, visits the same x values. */
  lemma SharedGrid(v1: Variant, m1: Method, f1: Derivative, y1: real,
                   v2: Variant, m2: Method, f2: Derivative, y2: real,
                   x0: real, h: real, n: nat)
    ensures Solve(v1, m1, f1, x0, y1, h, n).xs == Solve(v2, m2, f2, x0, y2, h, n).xs
  {
    IterateSharedGrid(StepperOf(v1, m1, f1, h), y1, StepperOf(v2, m2, f2, h), y2, x0, h, n);
  }

  /** On a constant right-hand side f == c every scheme gives y[i] = y0 + i*h*c. */
  lemma ConstantDerivative(v: Variant, m: Method, f: Derivative, c: real,
                           x0: real, y0: real, h: real, n: nat)
    requires forall a, b :: f(a, b) == c
    ensures forall i :: 0 <= i <= n ==> Solve(v, m, f, x0, y0, h, n).ys[i] == y0 + (i as real) * (h * c)
  {
    var step := StepperOf(v, m, f, h);
    forall x, y ensures step(x, y) == y + h * c {
      StepOfConstant(v, m, f, c, x, y, h);
    }
    forall i | 0 <= i <= n ensures Iterate(step, x0, y0, h, n).ys[i] == y0 + (i as real) * (h * c) {
      IterateConstantIncrement(step, h * c, x0, y0, h, n, i);
    }
  }

  /** On f == 0 no scheme drifts: every y[i] stays at y0. */
  lemma ZeroDerivative(v: Variant, m: Method, f: Derivative, x0: real, y0: real, h: real, n: nat)
    requires forall a, b :: f(a, b) == 0.0
    ensures forall i :: 0 <= i <= n ==> Solve(v, m, f, x0, y0, h, n).ys[i] == y0
  {
    ConstantDerivative(v, m, f, 0.0, x0, y0, h, n);
  }

  /** The golden trace: Euler on f = x + y from (0, 1) with h = 0.5 and two steps. */
  lemma EulerGoldenTrace()
    ensures Solve(ScriptJs, Euler, (x, y) => x + y, 0.0, 1.0, 0.5, 2)
            == Trajectory([0.0, 0.5, 1.0], [1.0, 1.5, 2.5])
  {
    var step := StepperOf(ScriptJs, Euler, (x, y) => x + y, 0.5);
    var t1 := Iterate(step, 0.0, 1.0, 0.5, 1);
    assert t1 == Trajectory([0.0, 0.5], [1.0, 1.5]);
  }

  /** The two copies agree step for step on every scheme but AIME; in particular
      improved modified Euler makes the same three evaluations in both. */
  lemma CopiesAgreeExceptAime(m: Method, f: Derivative, x0: real, y0: real, h: real, n: nat)
    requires m != Aime
    ensures Solve(ScriptJs, m, f, x0, y0, h, n) == Solve(MainPy, m, f, x0, y0, h, n)
  {
    var s1, s2 := StepperOf(ScriptJs, m, f, h), StepperOf(MainPy, m, f, h);
    forall x, y ensures s1(x, y) == s2(x, y) {
      StepCopiesAgree(m, f, x, y, h);
    }
    IterateSameRule(s1, s2, x0, y0, h, n);
  }

  /** In main.py `aime` has the body of `modified_euler`, so the two trajectories
      coincide for every input. */
  lemma PythonAimeIsModifiedEuler(f: Derivative, x0: real, y0: real, h: real, n: nat)
    ensures Solve(MainPy, Aime, f, x0, y0, h, n) == Solve(MainPy, ModifiedEuler, f, x0, y0, h, n)
  {
    var s1, s2 := StepperOf(MainPy, Aime, f, h), StepperOf(MainPy, ModifiedEuler, f, h);
    forall x, y ensures s1(x, y) == s2(x, y) {
      PythonAimeStep(f, x, y, h);
    }
    IterateSameRule(s1, s2, x0, y0, h, n);
  }

  /** The two AIME copies are different schemes: on f = y from (0, 1) with h = 1
      one step gives 2.75 in script.js and 2.5 in main.py. */
  lemma AimeCopiesDiffer()
    ensures Step(ScriptJs, Aime, (x, y) => y, 0.0, 1.0, 1.0) == 2.75
    ensures Step(MainPy, Aime, (x, y) => y, 0.0, 1.0, 1.0) == 2.5
  {
  }
}
