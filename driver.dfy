/** The descent driver (`initialize` and `test_function`): `θ` starts at zero
    and each iteration records the error and then subtracts `af(θ, X, y)·lr`
    from `θ`. */
module Driver {
  import opened Numeric
  import opened Features
  import opened Objective
  import opened Acceleration

  /** `initialize`: the `dimension × 1` column of zeros. */
  function Initialize(dimension: nat): (th: Matrix)
    ensures IsColumn(th, dimension)
    ensures forall k :: 0 <= k < dimension ==> th[k][0] == 0.0
  {
    Zeros(dimension, 1)
  }

  /** At the initial `θ` the error is the sum of the squared targets. */
  lemma {:induction false} ErrorAtInitialize(X: Matrix, y: Matrix)
    requires |y| == 1 && IsMatrix(X, |X|, |y[0]|)
    ensures Conformable(Initialize(|X|), X, y)
    ensures Error(Initialize(|X|), X, y) == Dot(y[0], y[0])
  {
    ErrorAtZero(X, y);
  }

  /** An acceleration function `af(θ, X, y)` returning the change `Δθ` to subtract. */
  type AccelerationFunction = (Matrix, Matrix, Matrix) --> Matrix

  /** `af` accepts every `d × 1` column `θ` with this `X` and `y` and returns a
      `d × 1` column: what `test_function` needs of it for `th -= af(th, X, y) * lr`. */
  ghost predicate Fits(af: AccelerationFunction, X: Matrix, y: Matrix)
  {
    |y| == 1 && IsMatrix(X, |X|, |y[0]|) &&
    forall th :: IsColumn(th, |X|) ==> af.requires(th, X, y) && IsColumn(af(th, X, y), |X|)
  }

  /** `th -= delta * lr`, entry by entry. */
  function Update(th: Matrix, delta: Matrix, lr: real): (next: Matrix)
    requires IsColumn(th, |th|) && IsColumn(delta, |th|)
    ensures IsColumn(next, |th|)
    ensures forall k :: 0 <= k < |th| ==> next[k][0] == th[k][0] - delta[k][0] * lr
  {
    seq(|th|, k requires 0 <= k < |th| => [th[k][0] - delta[k][0] * lr])
  }

  /** `θ` after `k` iterations. */
  ghost function Theta(af: AccelerationFunction, X: Matrix, y: Matrix, lr: real, k: nat): (th: Matrix)
    requires Fits(af, X, y)
    ensures IsColumn(th, |X|)
    decreases k
  {
    if k == 0 then Initialize(|X|)
    else
      var prev := Theta(af, X, y, lr, k - 1);
      Update(prev, af(prev, X, y), lr)
  }

  /** The trace `test_function` returns after `iter` iterations: one entry
      per iteration, the error of `θ` as it stands when that iteration
      begins, so none when `iter` is zero or negative. */
  ghost function ErrorTrace(af: AccelerationFunction, X: Matrix, y: Matrix, lr: real, iter: int): (trace: seq<real>)
    requires iter > 0 ==> Fits(af, X, y)
    ensures |trace| == if iter > 0 then iter else 0
  {
    if iter <= 0 then []
    else seq(iter, j requires 0 <= j < iter => Error(Theta(af, X, y, lr, j), X, y))
  }

  /** Entry `j` of the trace is the error of `θ` after `j` updates, recorded
      before the next one, and it is never negative. */
  lemma {:induction false} TraceEntry(af: AccelerationFunction, X: Matrix, y: Matrix, lr: real, iter: int, j: nat)
    requires Fits(af, X, y) && j < iter
    ensures ErrorTrace(af, X, y, lr, iter)[j] == Error(Theta(af, X, y, lr, j), X, y)
    ensures ErrorTrace(af, X, y, lr, iter)[j] >= 0.0
  {
  }

  /** One more iteration appends the current error to the trace. */
  lemma {:induction false} TraceSnoc(af: AccelerationFunction, X: Matrix, y: Matrix, lr: real, j: nat)
    requires Fits(af, X, y)
    ensures ErrorTrace(af, X, y, lr, j + 1) == ErrorTrace(af, X, y, lr, j) + [Error(Theta(af, X, y, lr, j), X, y)]
  {
    var longer, shorter := ErrorTrace(af, X, y, lr, j + 1), ErrorTrace(af, X, y, lr, j);
    forall i | 0 <= i < j ensures longer[i] == shorter[i] {
      TraceEntry(af, X, y, lr, j + 1, i);
      TraceEntry(af, X, y, lr, j, i);
    }
    TraceEntry(af, X, y, lr, j + 1, j);
    Snoc(longer, shorter, Error(Theta(af, X, y, lr, j), X, y));
  }

  /** A sequence that agrees with `s` and then ends in `e` is `s + [e]`. */
  lemma Snoc(longer: seq<real>, s: seq<real>, e: real)
    requires |longer| == |s| + 1 && longer[|s|] == e
    requires forall i :: 0 <= i < |s| ==> longer[i] == s[i]
    ensures longer == s + [e]
  {
  }

  /** One more iteration applies the update to `θ`. */
  lemma {:induction false} ThetaStep(af: AccelerationFunction, X: Matrix, y: Matrix, lr: real, j: nat)
    requires Fits(af, X, y)
    ensures Theta(af, X, y, lr, j + 1) == Update(Theta(af, X, y, lr, j), af(Theta(af, X, y, lr, j), X, y), lr)
  {
  }

  /** The loop step of `test_function`, from iteration `j` to `j + 1`: with
      `θ` and the trace as after `j` iterations, appending the error and
      applying the update gives them as after `j + 1`. */
  lemma {:induction false} Advance(af: AccelerationFunction, X: Matrix, y: Matrix, lr: real, j: nat,
                                   th: Matrix, errs: seq<real>)
    requires Fits(af, X, y)
    requires th == Theta(af, X, y, lr, j) && errs == ErrorTrace(af, X, y, lr, j)
    ensures Conformable(th, X, y) && af.requires(th, X, y) && IsColumn(af(th, X, y), |th|)
    ensures errs + [Error(th, X, y)] == ErrorTrace(af, X, y, lr, j + 1)
    ensures Update(th, af(th, X, y), lr) == Theta(af, X, y, lr, j + 1)
  {
    TraceSnoc(af, X, y, lr, j);
    ThetaStep(af, X, y, lr, j);
  }

  /** `test_function`: builds `X` and `y` once, starts from `initialize`, and
      on each of `iter` iterations appends the current error and then
      applies the update. */
  method TestFunction(af: AccelerationFunction, data: seq<Sample>, dimension: nat, iter: int, lr: real)
    returns (errorPerIter: seq<real>)
    requires iter > 0 ==> Fits(af, DesignMatrix(data, dimension), Targets(data))
    ensures errorPerIter == ErrorTrace(af, DesignMatrix(data, dimension), Targets(data), lr, iter)
    ensures |errorPerIter| == if iter > 0 then iter else 0
    ensures iter > 0 ==> errorPerIter[0] == Dot(Targets(data)[0], Targets(data)[0])
  {
    errorPerIter := [];
    var X, Y := MakeDimData(data, dimension);
    var Xs, ys := Rows(X), Rows(Y);
    var th := Initialize(dimension);
    if iter > 0 {
      var j := 0;
      while j < iter
        invariant 0 <= j <= iter
        invariant th == Theta(af, Xs, ys, lr, j)
        invariant errorPerIter == ErrorTrace(af, Xs, ys, lr, j)
      {
        Advance(af, Xs, ys, lr, j, th, errorPerIter);
        errorPerIter := errorPerIter + [Error(th, Xs, ys)];
        th := Update(th, af(th, Xs, ys), lr);
        j := j + 1;
      }
      TraceEntry(af, Xs, ys, lr, iter, 0);
      ErrorAtInitialize(Xs, ys);
    }
  }

  /** `sample_af` fits every design matrix built from at least one sample. */
  lemma {:induction false} SampleAfFits(X: Matrix, y: Matrix)
    requires |y| == 1 && IsMatrix(X, |X|, |y[0]|) && |y[0]| > 0
    ensures Fits(SampleAf, X, y)
  {
    forall th | IsColumn(th, |X|) ensures SampleAf.requires(th, X, y) && IsColumn(SampleAf(th, X, y), |X|) {
      assert Conformable(th, X, y);
    }
  }

  /** `n·‖Δθ‖²` for `Δθ = sample_af(θ, X, y)`: how fast the error falls along
      the step. */
  function StepDecrease(th: Matrix, X: Matrix, y: Matrix): real
    requires Conformable(th, X, y) && |y[0]| > 0
  {
    var delta := SampleAf(th, X, y);
    Dot(ColumnVector(delta), Scaled(|y[0]| as real, ColumnVector(delta)))
  }

  /** The squared norm of the prediction of `Δθ = sample_af(θ, X, y)`. */
  function StepCurvature(th: Matrix, X: Matrix, y: Matrix): real
    requires Conformable(th, X, y) && |y[0]| > 0
  {
    var delta := SampleAf(th, X, y);
    Dot(Predict(delta, X, |y[0]|), Predict(delta, X, |y[0]|))
  }

  /** One gradient step changes the error by an exact quadratic in `lr`:
      minus `lr·n·‖Δθ‖²` plus `lr²` times the squared norm of the prediction
      of `Δθ`. */
  lemma {:induction false} GradientStepError(th: Matrix, X: Matrix, y: Matrix, lr: real)
    requires Conformable(th, X, y) && |y[0]| > 0
    ensures Conformable(Update(th, SampleAf(th, X, y), lr), X, y)
    ensures Error(Update(th, SampleAf(th, X, y), lr), X, y)
         == Quadratic(Error(th, X, y), -StepDecrease(th, X, y), StepCurvature(th, X, y), lr)
  {
    SampleAfIsGradient(th, SampleAf(th, X, y), Update(th, SampleAf(th, X, y), lr), lr, X, y);
  }

  /** With `sample_af`, consecutive entries of the trace are related by the
      exact quadratic of `GradientStepError`, taken at `θ` after `j` iterations. */
  lemma {:induction false} TraceStep(X: Matrix, y: Matrix, lr: real, iter: int, j: nat, th: Matrix)
    requires Fits(SampleAf, X, y) && |y[0]| > 0
    requires j + 1 < iter && th == Theta(SampleAf, X, y, lr, j)
    ensures Conformable(th, X, y)
    ensures ErrorTrace(SampleAf, X, y, lr, iter)[j + 1]
         == Quadratic(ErrorTrace(SampleAf, X, y, lr, iter)[j], -StepDecrease(th, X, y), StepCurvature(th, X, y), lr)
  {
    TraceEntry(SampleAf, X, y, lr, iter, j);
    TraceEntry(SampleAf, X, y, lr, iter, j + 1);
    ThetaStep(SampleAf, X, y, lr, j);
    GradientStepError(th, X, y, lr);
  }

  /** A `θ` that the update maps to itself stays put: every later `θ` is the same. */
  lemma {:induction false} ThetaStaysAtFixedPoint(af: AccelerationFunction, X: Matrix, y: Matrix, lr: real,
                                                  j: nat, k: nat, th: Matrix)
    requires Fits(af, X, y) && j <= k && th == Theta(af, X, y, lr, j)
    requires Update(th, af(th, X, y), lr) == th
    ensures Theta(af, X, y, lr, k) == th
    decreases k
  {
    if j < k {
      ThetaStaysAtFixedPoint(af, X, y, lr, j, k - 1, th);
      ThetaStep(af, X, y, lr, k - 1);
    }
  }

  /** Once `θ` fits the targets exactly, the gradient step leaves it where it
      is: every later `θ` is the same. */
  lemma {:induction false} ThetaStaysAtFit(X: Matrix, y: Matrix, lr: real, j: nat, k: nat, th: Matrix)
    requires Fits(SampleAf, X, y) && |y[0]| > 0
    requires j <= k && th == Theta(SampleAf, X, y, lr, j)
    requires Error(th, X, y) == 0.0
    ensures Theta(SampleAf, X, y, lr, k) == th
  {
    FitIsFixed(th, X, y, lr);
    ThetaStaysAtFixedPoint(SampleAf, X, y, lr, j, k, th);
  }

  /** Once an entry of the trace is zero, every later entry is zero as well. */
  lemma {:induction false} TraceStaysAtFit(X: Matrix, y: Matrix, lr: real, iter: int, j: nat, k: nat, th: Matrix)
    requires Fits(SampleAf, X, y) && |y[0]| > 0
    requires j <= k < iter && th == Theta(SampleAf, X, y, lr, j)
    ensures ErrorTrace(SampleAf, X, y, lr, iter)[j] == 0.0 ==> ErrorTrace(SampleAf, X, y, lr, iter)[k] == 0.0
  {
    TraceEntry(SampleAf, X, y, lr, iter, j);
    if Error(th, X, y) == 0.0 {
      ThetaStaysAtFit(X, y, lr, j, k, th);
      TraceEntry(SampleAf, X, y, lr, iter, k);
    }
  }

  /** A `θ` with zero error is a fixed point of the gradient step. */
  lemma {:induction false} FitIsFixed(th: Matrix, X: Matrix, y: Matrix, lr: real)
    requires Conformable(th, X, y) && |y[0]| > 0
    requires Error(th, X, y) == 0.0
    ensures Update(th, SampleAf(th, X, y), lr) == th
  {
    SampleAfZeroAtFit(th, X, y);
    var next := Update(th, SampleAf(th, X, y), lr);
    forall k | 0 <= k < |th| ensures next[k] == th[k] {
      assert next[k][0] == th[k][0];
    }
  }
}
