# Polynomial least-squares descent harness, modelled in Dafny

The script `test_acceleration_function.py` fits a polynomial to `(x, y)`
samples by iterating an *acceleration function* `af`. Four pieces make up
the fit:

- `make_dim_data` turns the samples into a design matrix `X`. `X` is
  `dimension × n`, and row `dimension - 1 - d` holds the `d`-th powers of
  the sample points. It also builds a `1 × n` target matrix `y`.
- `initialize` is the zero coefficient column `θ`.
- `error` is the sum of the squared residuals `θᵀ·X - y`.
- `sample_af` is the plain gradient step.

`test_function` records `error(θ, X, y)` on each of `iter` iterations and
then performs `θ -= af(θ, X, y)·lr`.

The model follows the program's structure, one module per concern:

- `numeric.dfy` (`Numeric`): matrices as sequences of rows with
  shape predicates. It gives numpy's `zeros`, `sum`, `dot`, `θᵀ·X` and the
  row sums as exact real functions, with the linear-algebra lemmas the
  proofs need.
- `features.dfy` (`Features`): `make_dim_data` as a method. It fills two
  `array2<real>`s in place with the source's nested loops. It is proved
  against the value-level `DesignMatrix` and `Targets`. It also holds the
  fact that a prediction on the design matrix is the polynomial evaluated
  at the sample point.
- `objective.dfy` (`Objective`): `error`, with its exact behaviour under
  any descent step `θ - t·v`. The error after the step is a quadratic in
  `t` with closed-form coefficients.
- `acceleration.dfy` (`Acceleration`): `sample_af`. It is proved to return
  `1/n` times the gradient of `error`: the linear coefficient of that
  quadratic is `-⟨v, n·sample_af(θ)⟩`. It vanishes at an exact fit. The
  commented worked example `[[50], [177]]` is proved.
- `driver.dfy` (`Driver`): `initialize`, the update and `test_function`.
  - `test_function` is a method whose loop is proved to return
    `ErrorTrace`. Entry `j` of that trace is the error of the `j`-th
    iterate `Theta(j)`.
  - With `sample_af`, consecutive trace entries satisfy the exact
    quadratic step identity.
  - A fixed point of the update stays fixed, so a zero error stays zero.

Numbers are exact reals. `af` is a value of the partial function type
`(Matrix, Matrix, Matrix) --> Matrix`. `Fits` states what the loop needs of
it: for every `d × 1` column `θ`, `af` is defined on `θ` with these `X` and
`y`, and it returns a `d × 1` column. The source's only acceleration
function, `sample_af`, is proved to fit whenever there is at least one
sample (`SampleAfFits`).

The model keeps two edge cases the source does not reject:

- A zero `dimension` builds an empty `θ` and an empty `X`, and runs as
  normal.
- A zero or negative `iter` returns the empty list: `range(iter)` is empty.

## Model

| member | source | states |
|---|---|---|
| `Numeric.Pow` | test_acceleration_function.py:58 | `x ** k` with `0 ** 0 = 1`, `0 ** k = 0` for `k > 0`, and `1 ** k = 1` |
| `Numeric.PowAdd` | test_acceleration_function.py:58 | `x ** (i + j) = x ** i · x ** j` |
| `Numeric.Sum` | test_acceleration_function.py:73 | `np.sum` of a vector; its meaning is stated by `SumAppend`, `SumIsDot` and `SumOfSquares` |
| `Numeric.SumAppend` | test_acceleration_function.py:73 | the sum of a concatenation is the sum of the sums of its parts |
| `Numeric.SumIsDot` | test_acceleration_function.py:32 | the sum of the entry-wise products `a_i·b_i` is the inner product `⟨a, b⟩` |
| `Numeric.RowTimes` | test_acceleration_function.py:73 | `θᵀ·X` (`np.dot(th.T, x)`) has one entry per column of `X`; entry `i` is given by `RowTimesEntry` |
| `Numeric.Zeros` | test_acceleration_function.py:36 | `np.zeros((rows, cols))` has that shape and every entry is `0` |
| `Numeric.RowTimesEntry` | test_acceleration_function.py:73 | entry `i` of `θᵀ·X` is the inner product of `θ` with column `i` of `X` |
| `Numeric.TimesColumnEntry` | test_acceleration_function.py:32 | entry `k` of `X·s` is the inner product of `s` with row `k` of `X` |
| `Numeric.SumOfSquares` | test_acceleration_function.py:73 | the sum of the squared entries of `r` is `⟨r, r⟩` |
| `Numeric.DotSelf` | test_acceleration_function.py:73 | `⟨r, r⟩ ≥ 0`, and it is `0` exactly when every entry of `r` is `0` |
| `Numeric.DotDescentQuadratic` | test_acceleration_function.py:93 | the squared norm of `r - t·p` is the quadratic `‖r‖² - 2t⟨r, p⟩ + t²‖p‖²` |
| `Features.DesignMatrix` | test_acceleration_function.py:52 | the design matrix is `dimension × n` |
| `Features.Targets` | test_acceleration_function.py:53 | the target matrix is `1 × n` |
| `Features.MakeDimData` | test_acceleration_function.py:50-59 | the two new arrays it allocates and fills in place are `dimension × n` and `1 × n`, and hold exactly `DesignMatrix` and `Targets` |
| `Features.DesignMatrixEntry` | test_acceleration_function.py:55-58 | entry `[dimension - 1 - d][i]` of the design matrix is `x_i ** d`, and target `i` is `y_i` |
| `Features.DesignMatrixColumn` | test_acceleration_function.py:57-58 | column `i` of the design matrix is `[x_i ** (dimension - 1), …, x_i, 1]` |
| `Features.DotPowers` | test_acceleration_function.py:57-58 | the inner product of coefficients `c` with those powers of `x` is the polynomial `c` evaluated at `x` (Horner's rule) |
| `Features.MakeDimDataExample` | test_acceleration_function.py:62-63 | on `(1,2), (2,4), (3,2), (4,1)` at dimension 3, `X` is `[[1,4,9,16], [1,2,3,4], [1,1,1,1]]` and `y` is `[[2,4,2,1]]` |
| `Objective.Predict` | test_acceleration_function.py:73 | `θᵀ·X` has one entry per sample |
| `Objective.Residual` | test_acceleration_function.py:73 | entry `i` of `θᵀ·X - y` is prediction `i` minus target `i` |
| `Objective.Error` | test_acceleration_function.py:72-73 | the error is never negative, it is `0` exactly when every prediction equals its target, and it is the squared norm of the residual |
| `Objective.ErrorAtZero` | test_acceleration_function.py:72-73 | at `θ = 0` the error is the sum of the squared targets |
| `Objective.PredictIsPolynomial` | test_acceleration_function.py:73 | on the design matrix, prediction `i` is the polynomial with coefficients `θ` (highest degree first) evaluated at `x_i` |
| `Objective.ErrorIsMisfit` | test_acceleration_function.py:72-73 | on `make_dim_data`'s output, the error is the sum over the samples of `(p(x_i) - y_i)²` for the polynomial `p` with coefficients `θ` |
| `Objective.ColumnShift` | test_acceleration_function.py:93 | the descent step `θ - t·v` moves every coefficient by `-t` times the matching entry of `v` |
| `Objective.ResidualShift` | test_acceleration_function.py:93 | after the step `θ - t·v`, the residual is the old residual minus `t` times the prediction of `v` |
| `Objective.ErrorOfShift` | test_acceleration_function.py:93 | after the step `θ - t·v`, the error is the squared norm of that shifted residual |
| `Objective.ErrorExpansion` | test_acceleration_function.py:72-73 | after the step `θ - t·v`, the error is the quadratic in `t` with constant term the old error, linear coefficient `-2⟨r, v ᵀX⟩` and quadratic coefficient `‖vᵀX‖²` |
| `Acceleration.LinAlgRow` | test_acceleration_function.py:31 | row `k` of `lin_alg` has one entry per sample; its sum is given by `LinAlgRowSum` |
| `Acceleration.LinAlgRowSum` | test_acceleration_function.py:31-32 | the sum of row `k` of `lin_alg = (2/n)·r·X` is the inner product of `(2/n)·r` with row `k` of `X` |
| `Acceleration.SampleAf` | test_acceleration_function.py:28-33 | `sample_af` returns a `d × 1` column whose entry `k` is `⟨(2/n)·(θᵀ·X - y), X[k]⟩` |
| `Acceleration.SampleAfColumn` | test_acceleration_function.py:31-32 | as a vector, `sample_af`'s result is `X·((2/n)·r)` |
| `Acceleration.ScaleBack` | test_acceleration_function.py:31 | `n` times `X·((2/n)·r)` is `X·(2·r)` |
| `Acceleration.GradientPairing` | test_acceleration_function.py:28-33 | the inner product of any direction `v` with `n·sample_af(θ)` is `2⟨r, vᵀX⟩`, that is the directional derivative of `error` along `v` |
| `Acceleration.SampleAfIsGradient` | test_acceleration_function.py:28-33 | after the step `θ - t·v`, the error is the quadratic in `t` whose linear coefficient is `-⟨v, n·sample_af(θ)⟩`: `sample_af` is `1/n` times the gradient of `error` |
| `Acceleration.SampleAfZeroAtFit` | test_acceleration_function.py:31-32 | when every prediction equals its target, `sample_af` returns the zero column |
| `Acceleration.ExamplePredict` | test_acceleration_function.py:39-41 | on the commented example, `θᵀ·X = [2, 6, 12, 20]` |
| `Acceleration.SampleAfExample` | test_acceleration_function.py:39-42 | `sample_af([[1],[1]], [[1,2,3,4],[1,4,9,16]], [[1,2,3,4]])` is `[[50], [177]]` |
| `Driver.Initialize` | test_acceleration_function.py:35-36 | `initialize(dimension)` is a `dimension × 1` column of zeros |
| `Driver.ErrorAtInitialize` | test_acceleration_function.py:35-36 | at the initial `θ`, the error is the sum of the squared targets |
| `Driver.Update` | test_acceleration_function.py:93 | `θ -= Δθ·lr` keeps the shape `d × 1` and sets coefficient `k` to `θ_k - Δθ_k·lr` |
| `Driver.Theta` | test_acceleration_function.py:88-93 | every iterate of the loop is a `d × 1` column |
| `Driver.ErrorTrace` | test_acceleration_function.py:85-94 | the trace has one entry per iteration, none when `iter ≤ 0` |
| `Driver.TraceEntry` | test_acceleration_function.py:91-92 | entry `j` of the trace is the error of `θ` after `j` updates, and it is never negative |
| `Driver.TraceSnoc` | test_acceleration_function.py:91-92 | one more iteration appends the error of the current `θ` to the trace |
| `Driver.ThetaStep` | test_acceleration_function.py:93 | the iterate after `j + 1` iterations is the update of the iterate after `j` by `af` |
| `Driver.Advance` | test_acceleration_function.py:90-93 | one loop iteration takes `θ` and the trace from their state after `j` iterations to their state after `j + 1` |
| `Driver.TestFunction` | test_acceleration_function.py:85-94 | `test_function` returns `ErrorTrace`: `iter` entries, or none when `iter ≤ 0`; the first is the sum of the squared targets |
| `Driver.SampleAfFits` | test_acceleration_function.py:28-33 | with at least one sample, `sample_af` accepts every `d × 1` `θ` and returns a `d × 1` column |
| `Driver.GradientStepError` | test_acceleration_function.py:93 | one gradient step changes the error exactly to `error - lr·n·‖Δθ‖² + lr²·‖Δθᵀ·X‖²` |
| `Driver.TraceStep` | test_acceleration_function.py:90-93 | with `sample_af`, consecutive trace entries are related by that exact quadratic in `lr` |
| `Driver.FitIsFixed` | test_acceleration_function.py:93 | a `θ` with zero error is left unchanged by the gradient step |
| `Driver.ThetaStaysAtFixedPoint` | test_acceleration_function.py:90-93 | for any `af`, an iterate that the update maps to itself equals every later iterate |
| `Driver.ThetaStaysAtFit` | test_acceleration_function.py:90-93 | with `sample_af`, once an iterate fits the targets exactly, every later iterate is the same |
| `Driver.TraceStaysAtFit` | test_acceleration_function.py:90-93 | with `sample_af`, once an entry of the trace is zero, every later entry is zero |

## Left out

- Floating point: every number is an exact real. Rounding, overflow to
  infinity and NaN are not modelled, so the identities hold for the real
  computation that numpy's floats approximate.
- `sample_data` (lines 9-14) draws random numbers and is not part of this
  model. Samples are a parameter, `seq<Sample>`.
- The `print` calls (lines 15 and 98) and the top-level run (lines 97-98)
  are I/O and not modelled. Lines 42 and 63 are commented out.
- The `matplotlib` import (line 2) is unused and not modelled.
- Heavy-ball and Nesterov are only named in a comment (line 79). No such
  functions exist, so `af` is a parameter and only `sample_af` is modelled.
- Numpy broadcasting beyond the shapes the script uses is not modelled.
  `θ` is `d × 1`, `X` is `d × n` and `y` is `1 × n`, stated by
  `Conformable` and `Fits`.
- `af` is modelled as a pure function of `(θ, X, y)`. A callable that keeps
  state between calls (such as heavy-ball or Nesterov momentum) or updates
  its arguments in place is outside the model.
- `test_function` updates the numpy array `θ` in place and passes it to
  `af` (line 93). The model updates `θ` as a value. This matches the source
  only for an `af` that does not keep or modify `θ`, as `sample_af` does not.
- `TestFunction` reads `X` and `y` once after `make_dim_data` fills them.
  The script writes them no more, and a pure `af` does not write them.
- `Acceleration.SampleAf`: `n = 0` divides by zero in `2/n` and raises in
  the source. The model requires at least one sample.
- No convergence claim is made. Whether the error decreases depends on
  `lr`. The model proves the exact one-step identity instead
  (`GradientStepError`, `TraceStep`).
- The unused locals `s` and `d` of `sample_af` (lines 29-30) are not
  modelled.
