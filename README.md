# Lagrange interpolation builder — a Dafny model

The interpolation service receives an ordered list of sample points `{x, y}`.
It builds the Lagrange-form interpolating polynomial P(x) = Σ y_i · L_i(x) as
text, then hands that text to a computer-algebra library for simplification.
This project models the text builder in `pages/api/lagrange.ts`. That is the
nested `getLnFunctionAsString(n, dataPoints)` and the outer `reduce` that
composes the polynomial. The model has two layers.

**Text layer** (`lagrange_text.dfy`, module `LagrangeText`, with the point
type in `points.dfy`, module `Points`). The `filter` and the three `reduce`
folds of the source are written as recursive functions over `seq<Point>`. Each
fold keeps the source's accumulator and its left-to-right order.

- `Points.Without` is the `filter` that drops position `n`.
- `DenominatorFold` multiplies by (x_n − x_j), starting from 1.
- `NumeratorFold` appends `(x - x_j)`, starting from `""`.
- `LnText` builds `numerator + " / " + denominator`.
- `ComposedFold` appends `" + " + y_i + " * (" + L(i) + ")"`, starting from `""`.

The runtime's number-to-text conversion is the parameter `show: real -> string`.
The text keeps the quirks of the source:

- the factors are juxtaposed, with no `*` between them;
- a nonempty result starts with `" + "`;
- a single point yields the basis text `" / " + show(1)`;
- the empty input yields `""`.

**Structured form and meaning** (`lagrange_form.dfy`, module `LagrangeForm`).
The text is the rendering of a list of summands `Summand(weight, Basis(roots,
denominator))`. Each fold is proved equal to the rendering of the form that
`FormOf` assigns to the input. The form is then evaluated over exact reals:

- the juxtaposed factors are read as a product, and an empty run of factors is the empty product 1;
- `/` is a real division that yields `DivisionByZero` on a zero denominator;
- the leading `" + "` of each summand is a sum, and the empty sum is 0.

On this meaning the model proves the following.

- The defining Lagrange property: L(n) is 1 at x_n and 0 at every other x_j.
- Interpolation at every sample.
- Degree bounds, through an expanded coefficient list (`polynomial.dfy`):
  L(n) has degree exactly len − 1, and the sum has degree at most len − 1.
- Division by zero happens exactly when two samples share an x value.

`lagrange_examples.dfy` works through small inputs: one point, a line, y = x²,
and a duplicate x.

Three behaviours of the code are worth stating on their own:

- The numerator pieces `(x - x_j)` are juxtaposed, with no operator between
  them. The model reproduces that text and reads the juxtaposition as a
  product, which is the meaning the Lagrange basis needs.
- A single point gives an empty numerator. The model reads it as the empty
  product 1, so the result is the constant y_0 (`SinglePointIsConstant`).
- A duplicate x does not make the builder fail while the text is built: the
  text holds `" / " + show(0)` (`DenominatorZeroIffDuplicate`). The division
  by zero shows up only in the meaning (`DuplicateXDividesByZero`).

## Model

| member | source | states |
|---|---|---|
| Points.Without | pages/api/lagrange.ts:18 | Dropping position n leaves len − 1 points when 0 ≤ n < len. Any other n leaves all len points. |
| Points.WithoutKeepsOrder | pages/api/lagrange.ts:18 | The filtered list is exactly the points before n followed by the points after n, in their original order. It is the whole list when n is out of range. |
| Points.OtherXs | pages/api/lagrange.ts:18 | A value is the x of some remaining point exactly when some sample at a position other than n has that x. |
| Polynomial.LinearProductZero | pages/api/lagrange.ts:20-22 | Over exact reals, a product of factors (t − r) is zero exactly when t is one of the r. |
| Polynomial.FromRoots | pages/api/lagrange.ts:24-26 | Expanding the juxtaposed factors (x − r) gives a monic polynomial with one more coefficient than there are factors. |
| Polynomial.EvalFromRoots | pages/api/lagrange.ts:24-26 | The expanded polynomial equals the product of its factors at every x. |
| LagrangeText.DenominatorFold | pages/api/lagrange.ts:20-22 | The denominator fold from acc is acc times the product of (x_n − x_j) over the remaining points, in order. From 1 it is that product. |
| LagrangeText.NumeratorFold | pages/api/lagrange.ts:24-26 | The numerator fold from acc is acc followed by `(x - x_j)` for each remaining point, in order, with no separator. From `""` it is just those factors. |
| LagrangeText.LnText | pages/api/lagrange.ts:16-29 | The L(n) text is the numerator factors of the points other than n, then `" / "`, then show(Π(x_n − x_j)). This is the rendering of the basis term for sample n. |
| LagrangeText.ComposedFold | pages/api/lagrange.ts:32-36 | The outer fold from sample i is acc followed by `" + " + show(y_k) + " * (" + L(k) + ")"` for every k ≥ i, in order. |
| LagrangeText.Composed | pages/api/lagrange.ts:32-36 | The outer fold from sample 0 and `""` is exactly the rendering of one summand y_i·L(i) per sample, in sample order. |
| LagrangeText.DenominatorZeroIffDuplicate | pages/api/lagrange.ts:20-22 | The denominator of L(n) is 0 exactly when another sample has the same x as sample n. Nothing guards against it. |
| LagrangeText.DistinctDenominatorsNonzero | pages/api/lagrange.ts:20-22 | With pairwise distinct x values, no denominator is 0. |
| LagrangeText.SinglePointText | pages/api/lagrange.ts:16-36 | For one point the denominator is 1 and the numerator is empty. L(0) is `" / " + show(1)`, and the composed text is `" + " + show(y) + " * ( / " + show(1) + ")"`. |
| LagrangeText.EmptyInputText | pages/api/lagrange.ts:32-36 | No points give the empty text. |
| LagrangeText.ComposedLeadingPlus | pages/api/lagrange.ts:32-36 | A nonempty input gives text that starts with `" + "`. |
| LagrangeText.ComposedPlusCount | pages/api/lagrange.ts:32-36 | The composed text has one `+` per sample, the separator in front of each summand, plus exactly the `+` signs the number format prints in weights, roots and denominators. |
| LagrangeText.SeparatorsOnlyPlusCount | pages/api/lagrange.ts:32-36 | If numbers print without a `+`, the composed text has exactly one `+` per sample. |
| LagrangeForm.BasisOf | pages/api/lagrange.ts:16-22 | The basis term for sample n has len − 1 factors. |
| LagrangeForm.BasisRoots | pages/api/lagrange.ts:18-26 | Every other sample's x is a root of L(n). x_n is a root only when another sample shares it. |
| LagrangeForm.EvalSumFails | pages/api/lagrange.ts:28-35 | Evaluating the composed polynomial fails, at any x, exactly when one of its denominators is 0. |
| LagrangeForm.DefinedIffDistinct | pages/api/lagrange.ts:20-22 | All of the builder's denominators are nonzero exactly when the x values are pairwise distinct. |
| LagrangeForm.DuplicateXDividesByZero | pages/api/lagrange.ts:16-36 | The composed polynomial divides by zero at every x exactly when two samples share an x. |
| LagrangeForm.BasisIsKronecker | pages/api/lagrange.ts:16-29 | With distinct x values, L(n) evaluates to 1 at x_n and to 0 at every other sample's x. |
| LagrangeForm.SumOfOneNonzero | pages/api/lagrange.ts:32-36 | A sum whose summands are all 0 except the one at position k evaluates to that summand. |
| LagrangeForm.Interpolates | pages/api/lagrange.ts:32-36 | With distinct x values, Σ y_i·L(i) evaluated at x_k is y_k, for every sample k. |
| LagrangeForm.EvalBasisCoefficients | pages/api/lagrange.ts:16-29 | A basis term with a nonzero denominator equals its expanded coefficient list at every x. |
| LagrangeForm.BasisDegree | pages/api/lagrange.ts:16-29 | With distinct x values, L(n) is a polynomial of degree exactly len − 1: len coefficients, the last one nonzero. |
| LagrangeForm.EvalCoefficients | pages/api/lagrange.ts:32-36 | A sum with no zero denominator equals its expanded coefficient list at every x. |
| LagrangeForm.CoefficientsLength | pages/api/lagrange.ts:32-36 | If every basis term has fewer than m factors, the expanded sum has at most m coefficients. |
| LagrangeForm.InterpolantDegree | pages/api/lagrange.ts:32-36 | With distinct x values, the composed polynomial is a polynomial of degree at most len − 1 that agrees with its expansion everywhere. |
| LagrangeExamples.SinglePointIsConstant | pages/api/lagrange.ts:16-36 | One sample gives the constant y_0 at every x. |
| LagrangeExamples.TwoPointsGiveLine | pages/api/lagrange.ts:16-36 | The samples (0, 0) and (1, 1) give the identity x. |
| LagrangeExamples.ThreePointsGiveSquare | pages/api/lagrange.ts:16-36 | The samples of y = x² at 0, 1 and 2 give 9 at x = 3. |
| LagrangeExamples.DuplicatePointsFail | pages/api/lagrange.ts:16-36 | Two samples at x = 1 make every evaluation divide by zero. |

## Left out

- HTTP method dispatch and status codes (pages/api/lagrange.ts:9, 45, 55-58, 67): transport plumbing.
- `JSON.parse` and the schema validation of points and queries (pages/api/lagrange.ts:10, 13, 47): the input is taken as an already-typed `seq<Point>`. `../../interfaces` is not part of this model.
- `math.simplify`, `math.compile` and `evaluate` (pages/api/lagrange.ts:40, 50, 57): a foreign computer-algebra library. The model does not parse the text or simplify it. It also does not say how that library reads the leading `" + "`, the juxtaposed factors, an empty numerator or a `" / 0"`. The structured form and its evaluation state the intended meaning instead. The GET evaluator is therefore not modelled.
- Error catching and logging (pages/api/lagrange.ts:60-63): I/O.
- Floating point: the denominator is computed over exact reals, with no double rounding. JavaScript's number-to-string formatting is the abstract parameter `show`.
- LagrangeText.ComposedPlusCount: counts `+` characters, not occurrences of the `" + "` term prefix. The `+` signs a number format prints (JavaScript writes `1e+21`) are counted separately rather than told apart from separators by position.
- Empty input: the text is `""` and its meaning is the zero polynomial. What the algebra library does with `""` is not modelled.
