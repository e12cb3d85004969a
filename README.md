# Euler-family ODE solver: a Dafny model

The repository solves initial value problems y' = f(x, y), y(x0) = y0 on a fixed grid with step h. It offers five explicit one-step schemes: Euler, improved Euler (Heun), modified Euler (midpoint), improved modified Euler and AIME. It has two front ends:

- a browser page (`script.js`), which solves with one chosen method or compares all five. It can measure errors against an exact solution the user supplies, or otherwise against AIME;
- a console program (`main.py`), which always runs all five and plots their errors against the exact solution or against AIME.

This project models the numerical core of both copies and proves properties of it:

- **Integrators** (`integrators.dfy`).
  - Each scheme's update rule is transcribed twice, once as script.js writes it and once as main.py writes it (for instance main.py's improved modified Euler goes through `y_inner` and `y_mid`, script.js's through `k1` and `k2`). `Step` picks the copy by `Variant = ScriptJs | MainPy`. The non-AIME rules of the two copies are proved equal; on AIME they differ: script.js uses three stages, and main.py uses two and textually equals modified Euler.
  - The integrator loop is a method, `Integrate`, proved against the recursive specification `Solve`, an instance of the generic `Iterate`.
  - The lemmas prove:
    - shape, grid, the prefix property and uniqueness of the recurrence;
    - the closed form for a constant right-hand side;
    - a golden Euler trace;
    - that the copies agree except on AIME, and that Python's AIME equals modified Euler.
- **Step count** (`stepcount.dfy`). script.js uses `Math.round((xn - x0)/h)` (nearest integer, ties up). main.py uses `int((xn - x0)/h)` (truncation toward zero). The model proves how the two relate and where the last grid point of script.js's trajectory ends up: within half a step of xn when (xn - x0)/h >= -1/2, and at x0 (no step run) below that.
- **Dispatch** (`dispatch.dfy`). `getMethod` maps exactly five keys to schemes.
- **Comparison and errors** (`comparison.dfy`).
  - Single-method mode (`solveODE`).
  - All-methods mode (`compareAllMethods` and main.py's results loop), with the choice of reference curve.
  - Element-wise absolute errors and the max/final/average statistics.
  - The error-comparison loop, which in script.js skips AIME when AIME is the reference and in main.py never does.
- **Expression pre-processing** (`preprocess.dfy`). Before the expression compiler sees the text it is trimmed, `**` becomes `^`, and `*` is inserted between a digit and the letter after it. The models are string functions over `seq<char>`. Their lemmas cover the absence of `**`, separation of digits from letters, a round trip, idempotence, and the left-to-right regex scan being equal to "insert at every boundary".

Arithmetic is over Dafny's `real`, not IEEE doubles. The compiled right-hand side f and the exact solution are opaque total functions passed as parameters. Inputs the source cannot handle are modelled with `Option`: h == 0, and a method name that is not a key.

Where the two copies disagree, the model follows the code:

- AIME is modelled twice (three stages in script.js, two in main.py). `AimeCopiesDiffer` shows one input on which the two copies give different results.
- The step counts differ too (`CountsDifferAtTwoPointNine`).

## Model

| member | source | states |
|---|---|---|
| Integrators.EulerStep | script.js:16 | script.js's Euler update y + h*f(x, y) |
| Integrators.ImprovedEulerStep | script.js:30-32 | script.js's improved Euler update: k1 = f(x, y), k2 = f(x + h, y + h*k1), y + (h/2)*(k1 + k2) |
| Integrators.ModifiedEulerStep | script.js:46-47 | script.js's modified Euler update: y_mid = y + (h/2)*f(x, y), then y + h*f(x + h/2, y_mid) |
| Integrators.ImprovedModifiedEulerStep | script.js:64-67 | script.js's improved modified Euler update: k1, y_inner = y + h*k1, k2 = f(x + h/2, y + (h/2)*f(x, y_inner)), y + h*k2 |
| Integrators.AimeStepJs | script.js:82-85 | script.js's three-stage AIME update with k2 taken at x itself |
| Integrators.EulerStepPy | main.py:9 | main.py's `euler` update |
| Integrators.ImprovedEulerStepPy | main.py:16-18 | main.py's `improved_euler` update |
| Integrators.ModifiedEulerStepPy | main.py:25-26 | main.py's `modified_euler` update through `y_mid` |
| Integrators.ImprovedModifiedEulerStepPy | main.py:33-35 | main.py's `improved_modified_euler` update through `y_inner` and `y_mid` |
| Integrators.AimeStepPy | main.py:42-43 | main.py's two-stage `aime` update through `y_half` |
| Integrators.Step | script.js:11-92 | the update rule of each scheme in the chosen copy; its properties are StepOfConstant, StepCopiesAgree and PythonAimeStep |
| Integrators.StepOfConstant | script.js:16-85 | on a constant right-hand side c, one step of every scheme, in either copy, adds exactly h*c |
| Integrators.StepCopiesAgree | main.py:6-37 | for every scheme except AIME, main.py's transcription of the update rule computes the same value as script.js's |
| Integrators.PythonAimeStep | main.py:39-45 | main.py's AIME update equals its modified Euler update at every point |
| Integrators.StepsRun | script.js:15 | a `for (i = 0; i < n; i++)` or `range(n)` loop runs max(n, 0) times |
| Integrators.Iterate | script.js:11-22 | the shared trajectory builder returns n+1 x values and n+1 y values, starting at (x0, y0) |
| Integrators.Integrate | script.js:11-92 | the integrator loop returns exactly the specified n-step trajectory, of length max(n,0)+1, and the single point ([x0],[y0]) when n <= 0 |
| Integrators.IterateStep | script.js:15-20 | x[i+1] = x[i] + h and y[i+1] = step(x[i], y[i]) for every i < n |
| Integrators.IterateUnique | main.py:7-10 | any pair of sequences that starts at (x0, y0) and follows the recurrence is the built trajectory |
| Integrators.IteratePrefix | main.py:8-10 | a k-step run is the first k+1 points of any longer run |
| Integrators.IterateGrid | script.js:17 | the grid is x[i] = x0 + i*h whatever the update rule |
| Integrators.IterateSharedGrid | main.py:10 | the grid depends on x0, h and n only, not on the rule or on y0 |
| Integrators.IterateSameRule | main.py:22-45 | update rules that agree everywhere give equal trajectories |
| Integrators.IterateConstantIncrement | script.js:15-20 | a rule adding the constant d gives y[i] = y0 + i*d |
| Integrators.Solve | script.js:11-92 | the specified n-step trajectory of a scheme: n+1 grid points and n+1 estimates, starting at (x0, y0) |
| Integrators.SolveShape | script.js:11-92 | every scheme returns n+1 points starting at (x0, y0), on the grid x0 + i*h, and each y[i+1] is the scheme's step from (x[i], y[i]) |
| Integrators.SolvePrefix | script.js:80-89 | running k <= n steps of a scheme gives the first k+1 points of the n-step run |
| Integrators.SharedGrid | script.js:396-399 | all schemes of both copies visit the same x values for the same x0, h and n |
| Integrators.ConstantDerivative | script.js:16-85 | if f is constantly c, every scheme gives y[i] = y0 + i*h*c |
| Integrators.ZeroDerivative | main.py:9-43 | if f is zero, every scheme keeps y at y0 |
| Integrators.EulerGoldenTrace | script.js:11-23 | Euler on f = x + y from (0, 1), h = 0.5, two steps gives x = [0, 0.5, 1] and y = [1, 1.5, 2.5] |
| Integrators.CopiesAgreeExceptAime | main.py:30-37 | for every scheme but AIME, and in particular improved modified Euler, the two copies produce the same trajectory |
| Integrators.PythonAimeIsModifiedEuler | main.py:22-45 | main.py's `aime` and `modified_euler` produce the same trajectory for every input |
| Integrators.AimeCopiesDiffer | script.js:82-85 | on f = y from (0, 1) with h = 1 the JavaScript AIME step gives 2.75 and the Python one 2.5 |
| StepCount.RoundHalfUp | script.js:214 | `Math.round` returns the integer n with n - 1/2 <= r < n + 1/2 |
| StepCount.Truncate | main.py:61 | `int()` rounds toward zero: the result lies within 1 of r, on r's side of zero |
| StepCount.Count | script.js:380 | a step count exists exactly when h != 0 |
| StepCount.TruncateIsFloor | main.py:61 | on a non-negative ratio truncation is the floor |
| StepCount.CountsDifferByAtMostOne | main.py:61 | on a non-negative ratio the Python count is the JavaScript count or one less |
| StepCount.CountsDifferAtTwoPointNine | main.py:61 | a ratio of 2.9 gives 3 steps in script.js and 2 in main.py |
| StepCount.RoundingOfHalves | script.js:214 | `Math.round` sends 2.5 to 3 and -2.5 to -2; `int()` sends them to 2 and -2 |
| StepCount.ScriptEndpointWithinHalfStep | script.js:214 | for the rounded count n, the point x0 + n*h lies within half a step of xn (whatever the sign of n) |
| StepCount.ScriptLastGridPoint | script.js:15-17 | for every scheme, the last grid point of script.js's trajectory over round((xn - x0)/h) steps lies within half a step of xn when (xn - x0)/h >= -1/2; below that the count is negative, no step runs and the trajectory is the single point x0 |
| Dispatch.Key | script.js:96-102 | the key under which `getMethod`'s table stores each scheme |
| Dispatch.GetMethod | script.js:95-104 | a name yields a scheme exactly when it is one of the five keys, and then the scheme stored under that key |
| Dispatch.GetMethodOfKey | script.js:96-102 | each scheme is found under its own key and under no other name |
| Comparison.Sample | script.js:222 | sampling the exact solution gives one value g(x[i]) per grid point |
| Comparison.Reference | script.js:410-415 | the reference is the exact solution on AIME's grid when there is one, and AIME's own y otherwise; either way as long as AIME's y |
| Comparison.AbsErrors | script.js:536 | errors are element-wise abs(y[i] - ref[i]), as long as y, non-negative, and zero exactly where y meets the reference |
| Comparison.SelfErrorIsZero | script.js:414 | a curve measured against itself has zero error everywhere |
| Comparison.MaxOf | script.js:320 | the maximum is an element of the errors and bounds all of them |
| Comparison.Sum | script.js:322 | the total `reduce((a, b) => a + b, 0)`, added left to right; its properties are SumAppend, SumOfConstant and SumBounds |
| Comparison.SumAppend | script.js:322 | the total of a concatenation is the sum of the two totals, so the left-to-right grouping of the fold does not matter |
| Comparison.SumOfConstant | script.js:322 | n terms all equal to c add up to n*c |
| Comparison.SumBounds | script.js:322 | a sum of terms in [0, b] lies in [0, len*b] |
| Comparison.Summarize | script.js:319-322 | finalError is the last error, maxError is one of the errors and at least every error, avgError is the total divided by the count, and on non-negative errors 0 <= avgError <= maxError |
| Comparison.ConstantErrorStats | script.js:319-322 | an error curve that is constantly c has maximum, final and average error all equal to c |
| Comparison.AverageOfNonNegative | script.js:322 | when no error is negative and all are at most mx, the average sum/len lies in [0, mx] |
| Comparison.ErrorAnalysis | script.js:318-322 | on a run and its exact samples: the final error is the last point's, maxError is one of the point errors and at least every one of them, avgError is their total divided by the number of points, and 0 <= avgError <= maxError |
| Comparison.SolveOne | script.js:184-223 | single-method mode fails exactly on an unknown name or h == 0; otherwise it returns the named scheme's trajectory for the rounded step count, and the exact samples on its grid when there is an exact solution |
| Comparison.SingleResultAnalysable | script.js:252-253 | a single-method result with exact samples has equal, non-empty lengths, so its error analysis is defined |
| Comparison.SinglePointZeroError | script.js:214-222 | x0 == xn gives zero steps and the single point (x0, y0); if the exact solution passes through it, every statistic is zero |
| Comparison.CompareAll | script.js:380-415 | all-methods mode fails exactly when h == 0; otherwise it runs the five schemes in order on one step count and takes the reference from the AIME entry |
| Comparison.ComparisonShape | main.py:79-89 | in a comparison all five trajectories share one grid of max(n,0)+1 points, and the reference is as long as each |
| Comparison.AimeSelfError | main.py:88-89 | without an exact solution the reference is exactly AIME's y |
| Comparison.Skipped | script.js:524-527 | a run is skipped exactly in script.js, without an exact solution, for AIME |
| Comparison.Curves | script.js:521-536 | the specified error curves: at most one per run, none for a skipped scheme, each as long as the reference |
| Comparison.ErrorComparison | script.js:521-562 | the error-view loop builds exactly the specified curves, in order, skipping the skipped schemes |
| Comparison.CurvesWithoutSkips | main.py:106-107 | with nothing skipped there is one error curve per run, in the same order |
| Comparison.ErrorView | script.js:525-536 | script.js without an exact solution shows four curves and leaves out AIME; otherwise five; each curve is its run's errors against the reference |
| Comparison.PythonAimeCurveIsZero | main.py:106-107 | main.py without an exact solution still draws AIME's curve, and every value on it is zero |
| Preprocess.TrimStart | script.js:110 | dropping leading blanks never lengthens the text and leaves a non-blank first character |
| Preprocess.TrimEnd | script.js:110 | dropping trailing blanks leaves a non-blank last character and keeps the first character |
| Preprocess.TrimStartKeepsSuffix | script.js:110 | what is kept is a suffix of the input and everything before it is blank |
| Preprocess.TrimEndKeepsPrefix | script.js:110 | what is kept is a prefix of the input and everything after it is blank |
| Preprocess.TrimIsSlice | script.js:110 | trimming keeps one contiguous slice s[a..b] and every character before a and from b on is blank |
| Preprocess.Trim | script.js:152 | the trimmed text has non-blank ends, and text that already has them is unchanged |
| Preprocess.ReplacePow | script.js:116 | `**` replacement never lengthens the text; it starts with `*` exactly when the input starts with a lone `*`; each end is kept or becomes `^` |
| Preprocess.ReplacePowLeavesNoDoubleStar | script.js:157 | no `**` survives the replacement |
| Preprocess.ReplacePowIdentity | script.js:116 | text without `**` is unchanged |
| Preprocess.ReplacePowRoundTrip | script.js:116 | on text with no `^` of its own, writing each `^` back as `**` gives the input |
| Preprocess.ExpandPowOfReplacePow | script.js:116 | on every text, writing each `^` as `**` after the replacement gives the same as on the input: `^` and `**` mean the same thing |
| Preprocess.InsertMul | script.js:121 | the implicit-multiplication pass keeps the first character |
| Preprocess.InsertMulKeepsLast | script.js:121 | the pass keeps the last character |
| Preprocess.InsertMulSeparates | script.js:160 | after the pass no digit is directly followed by a letter |
| Preprocess.InsertMulIdentity | script.js:121 | text without a digit followed by a letter is unchanged |
| Preprocess.InsertMulKeepsNoDoubleStar | script.js:121 | the pass creates no `**` |
| Preprocess.BoundariesCount | script.js:121 | inserting at every digit-letter boundary adds one character per boundary |
| Preprocess.ScanInsertsAtEveryBoundary | script.js:121 | the regex's left-to-right scan inserts `*` at every digit-letter boundary and nowhere else, so the output is the input's length plus the number of boundaries |
| Preprocess.RemoveMulUndoesInsertMul | script.js:121 | deleting each `*` between a digit and a letter gives back an input that had no digit-`*`-letter of its own |
| Preprocess.InsertMulOnlyAddsStars | script.js:121 | the pass only adds `*`: with every `*` deleted, the text before and after it is the same |
| Preprocess.InsertMulIdempotent | script.js:160 | running the pass a second time changes nothing |
| Preprocess.ExponentNotationQuirk | script.js:121 | `1e5` becomes `1*e5` |
| Preprocess.Preprocess | script.js:110-121 | pre-processed text has no `**`, no digit directly before a letter, and non-blank ends |
| Preprocess.PreprocessIdempotent | script.js:152-160 | pre-processing already pre-processed text changes nothing |
| Preprocess.PowerOfVariable | script.js:110-116 | " x**2 " with any letter x and digit 2 becomes "x^2" |
| Preprocess.CoefficientOfVariable | script.js:121 | a digit written against a letter, as in "2x", becomes "2*x" |

## Left out

- DOM, UI and presentation are not modelled: event binding, reading input fields, `alert`, tables, tabs, and the globals `currentResults` / `allMethodsResults`, which are a UI cache.
- Plotting (Plotly, matplotlib) is not modelled. Neither are the log-scale sentinel that replaces zero or non-finite errors by 1e-16 for plotting, and the console output (`console.log`, `print`, `input`).
- Compiling and evaluating expressions (math.js `parse`/`compile`/`evaluate`, sympy `sympify`/`lambdify`) are foreign library calls. f and the exact solution are opaque total parameters. The try/catch that turns an evaluation error into NaN has no counterpart, and neither does a parse failure.
- Floating point is not modelled. There is no rounding drift in the repeated `x + h`, no NaN or Infinity propagation, and no `-0` or large-magnitude corner cases of `Math.round`. Real arithmetic stands in for doubles.
- h == 0 is modelled as `None`. main.py raises ZeroDivisionError here. script.js gets a non-finite step count, so it loops without end when xn > x0 and otherwise returns a single point. Neither behaviour is modelled.
- Dispatch.GetMethod: only the five keys are modelled. The object lookup in `getMethod` would also find inherited properties such as `toString`.
- Preprocess.Trim: only ASCII white space is removed (space, tab, line feed, vertical tab, form feed, carriage return). JavaScript's `trim` also removes the other Unicode space characters.
- Comparison.AbsErrors: requires equal lengths. Every caller passes equal lengths. For shorter references JavaScript would compare against `undefined` and numpy would raise.
- Comparison.Summarize: requires a non-empty error list. Every caller passes one, since a trajectory always has at least one point. JavaScript would give -Infinity and NaN for an empty list.
- Comparison.Reference: main.py's `exact_func(x)` on a constant expression returns one number, which numpy broadcasts. The model always samples point by point.
- `main.py`'s own single-method mode does not exist. Its comparison is `CompareAll` with `MainPy`, which evaluates `if exact_func:` as "an exact solution was given".
- Accuracy and convergence-order claims about the schemes are empirical statements about floating-point numerics over arbitrary f. They are not stated.
