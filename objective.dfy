/** The squared-error objective of the fit (`error`): the sum over the samples
    of the squared difference between the prediction `θᵀ·X` and the target. */
module Objective {
  import opened Numeric
  import opened Features

  /** The shapes `error` and `sample_af` work with: `θ` is `d × 1`, `X` is `d × n`
      and `y` is `1 × n`. */
  predicate Conformable(th: Matrix, X: Matrix, y: Matrix) {
    |y| == 1 && IsColumn(th, |th|) && IsMatrix(X, |th|, |y[0]|)
  }

  /** The prediction row `θᵀ·X` of `n` entries. */
  function Predict(th: Matrix, X: Matrix, n: nat): (p: seq<real>)
    requires IsColumn(th, |th|) && IsMatrix(X, |th|, n)
    ensures |p| == n
  {
    RowTimes(ColumnVector(th), X, n)
  }

  /** The residual row `θᵀ·X - y`. */
  function Residual(th: Matrix, X: Matrix, y: Matrix): (r: seq<real>)
    requires Conformable(th, X, y)
    ensures |r| == |y[0]|
    ensures forall i :: 0 <= i < |r| ==> r[i] == Predict(th, X, |y[0]|)[i] - y[0][i]
  {
    var p := Predict(th, X, |y[0]|);
    seq(|y[0]|, i requires 0 <= i < |y[0]| => p[i] - y[0][i])
  }

  /** `error`: the sum of the squared residuals. It is never negative, it is
      zero exactly when every prediction meets its target, and it is the
      squared norm of the residual row. */
  function Error(th: Matrix, X: Matrix, y: Matrix): (e: real)
    requires Conformable(th, X, y)
    ensures e >= 0.0
    ensures e == 0.0 <==> forall i :: 0 <= i < |y[0]| ==> Predict(th, X, |y[0]|)[i] == y[0][i]
    ensures e == Dot(Residual(th, X, y), Residual(th, X, y))
  {
    var r := Residual(th, X, y);
    var squares := seq(|r|, i requires 0 <= i < |r| => Square(r[i]));
    SumOfSquares(r, squares);
    DotSelf(r);
    Sum(squares)
  }

  /** At `θ = 0` (what `initialize` returns) the error is the sum of the squared targets. */
  lemma {:induction false} ErrorAtZero(X: Matrix, y: Matrix)
    requires |y| == 1 && IsMatrix(X, |X|, |y[0]|)
    ensures Conformable(Zeros(|X|, 1), X, y)
    ensures Error(Zeros(|X|, 1), X, y) == Dot(y[0], y[0])
  {
    var th, n := Zeros(|X|, 1), |y[0]|;
    RowTimesZero(ColumnVector(th), X, n);
    var r := Residual(th, X, y);
    assert forall i :: 0 <= i < n ==> r[i] == -1.0 * y[0][i];
    DotScaled(r, y[0], r, -1.0);
    DotSymmetric(r, y[0]);
    DotScaled(y[0], y[0], r, -1.0);
  }

  /** On the design matrix, prediction `i` is the polynomial with coefficients
      `θ` (highest degree first) evaluated at `x_i`. */
  lemma {:induction false} PredictIsPolynomial(th: Matrix, data: seq<Sample>, i: nat)
    requires IsColumn(th, |th|) && i < |data|
    ensures Predict(th, DesignMatrix(data, |th|), |data|)[i] == PolyVal(ColumnVector(th), data[i].x)
  {
    var X := DesignMatrix(data, |th|);
    RowTimesEntry(ColumnVector(th), X, |data|, i);
    DesignMatrixColumn(data, |th|, i);
    DotPowers(ColumnVector(th), data[i].x);
  }

  /** The squared misfit of a polynomial to the samples, computed directly. */
  function Misfit(c: seq<real>, data: seq<Sample>): real
  {
    Sum(seq(|data|, i requires 0 <= i < |data| => Square(PolyVal(c, data[i].x) - data[i].y)))
  }

  /** On the data `make_dim_data` builds, `error` is the squared misfit of the
      polynomial with coefficients `θ`. */
  lemma {:induction false} ErrorIsMisfit(th: Matrix, data: seq<Sample>)
    requires IsColumn(th, |th|)
    ensures Conformable(th, DesignMatrix(data, |th|), Targets(data))
    ensures Error(th, DesignMatrix(data, |th|), Targets(data)) == Misfit(ColumnVector(th), data)
  {
    var X, y := DesignMatrix(data, |th|), Targets(data);
    var r := Residual(th, X, y);
    var squares := seq(|data|, i requires 0 <= i < |data| => Square(PolyVal(ColumnVector(th), data[i].x) - data[i].y));
    forall i | 0 <= i < |data| ensures squares[i] == Square(r[i]) {
      PredictIsPolynomial(th, data, i);
    }
    SumOfSquares(r, squares);
  }

  /** A descent step `θ - t·v` (the form of the update `th -= af(th, X, y) * lr`):
      the error after it is the quadratic in `t` whose constant term is the
      error at `θ`, whose linear coefficient is minus twice the correlation of
      the residual with the prediction of `v`, and whose quadratic coefficient
      is the squared norm of that prediction. */
  lemma {:induction false} ErrorExpansion(th: Matrix, v: Matrix, moved: Matrix, t: real, X: Matrix, y: Matrix)
    requires Conformable(th, X, y) && IsColumn(v, |th|) && IsColumn(moved, |th|)
    requires forall k :: 0 <= k < |th| ==> moved[k][0] == th[k][0] - v[k][0] * t
    ensures Conformable(moved, X, y)
    ensures Error(moved, X, y)
         == Quadratic(Error(th, X, y),
                      -2.0 * Dot(Residual(th, X, y), Predict(v, X, |y[0]|)),
                      Dot(Predict(v, X, |y[0]|), Predict(v, X, |y[0]|)), t)
  {
    ErrorOfShift(th, v, moved, t, X, y);
    DotDescentQuadratic(Residual(th, X, y), t, Predict(v, X, |y[0]|));
  }

  /** The error after the step is the squared norm of the shifted residual. */
  lemma {:induction false} ErrorOfShift(th: Matrix, v: Matrix, moved: Matrix, t: real, X: Matrix, y: Matrix)
    requires Conformable(th, X, y) && IsColumn(v, |th|) && IsColumn(moved, |th|)
    requires forall k :: 0 <= k < |th| ==> moved[k][0] == th[k][0] - v[k][0] * t
    ensures Conformable(moved, X, y)
    ensures Error(moved, X, y)
         == Dot(AddScaled(Residual(th, X, y), -t, Predict(v, X, |y[0]|)),
                AddScaled(Residual(th, X, y), -t, Predict(v, X, |y[0]|)))
  {
    ResidualShift(th, v, moved, t, X, y);
  }

  /** The step moves the residual by `-t` times the prediction of `v`. */
  lemma {:induction false} ResidualShift(th: Matrix, v: Matrix, moved: Matrix, t: real, X: Matrix, y: Matrix)
    requires Conformable(th, X, y) && IsColumn(v, |th|) && IsColumn(moved, |th|)
    requires forall k :: 0 <= k < |th| ==> moved[k][0] == th[k][0] - v[k][0] * t
    ensures Conformable(moved, X, y)
    ensures Residual(moved, X, y) == AddScaled(Residual(th, X, y), -t, Predict(v, X, |y[0]|))
  {
    var n := |y[0]|;
    var b, bv := ColumnVector(th), ColumnVector(v);
    ColumnShift(th, v, moved, t);
    RowTimesAddScaled(b, -t, bv, X, n);
    var r, r2, p, pv := Residual(th, X, y), Residual(moved, X, y), Predict(th, X, n), Predict(v, X, n);
    ShiftedDifference(p, -t, pv, y[0], r, r2);
  }

  /** If `r = p - y` and `r2 = (p + q·v) - y`, then `r2 = r + q·v`. */
  lemma ShiftedDifference(p: seq<real>, q: real, v: seq<real>, target: seq<real>, r: seq<real>, r2: seq<real>)
    requires |p| == |v| == |target| == |r| == |r2|
    requires forall i :: 0 <= i < |r| ==> r[i] == p[i] - target[i]
    requires forall i :: 0 <= i < |r2| ==> r2[i] == AddScaled(p, q, v)[i] - target[i]
    ensures r2 == AddScaled(r, q, v)
  {
  }

  /** The entries of `θ - t·v` are those of `θ` plus `-t` times those of `v`. */
  lemma {:induction false} ColumnShift(th: Matrix, v: Matrix, moved: Matrix, t: real)
    requires IsColumn(th, |th|) && IsColumn(v, |th|) && IsColumn(moved, |th|)
    requires forall k :: 0 <= k < |th| ==> moved[k][0] == th[k][0] - v[k][0] * t
    ensures ColumnVector(moved) == AddScaled(ColumnVector(th), -t, ColumnVector(v))
  {
    var b, bv, b2 := ColumnVector(th), ColumnVector(v), ColumnVector(moved);
    forall k | 0 <= k < |th| ensures b2[k] == AddScaled(b, -t, bv)[k] {
      assert b2[k] == th[k][0] - v[k][0] * t;
      assert bv[k] == v[k][0];
    }
  }
}
