/** The plain gradient step `sample_af`: the change `Δθ` that one update
    subtracts from `θ`, row `k` being `Σ_i (2/n)·r_i·X[k][i]` for the residual
    `r = θᵀ·X - y`. */
module Acceleration {
  import opened Numeric
  import opened Features
  import opened Objective

  /** Row `k` of `lin_alg`: the products `c·r_i·X[k][i]`, one per sample. */
  function LinAlgRow(c: real, r: seq<real>, row: seq<real>): (w: seq<real>)
    requires |r| == |row|
    ensures |w| == |r|
  {
    seq(|r|, i requires 0 <= i < |r| => c * r[i] * row[i])
  }

  /** Summing a row of `lin_alg` gives the inner product of the scaled residual `c·r` with that row of `X`. */
  lemma {:induction false} LinAlgRowSum(c: real, r: seq<real>, row: seq<real>)
    requires |r| == |row|
    ensures Sum(LinAlgRow(c, r, row)) == Dot(Scaled(c, r), row)
  {
    SumIsDot(Scaled(c, r), row, LinAlgRow(c, r, row));
  }

  /** `sample_af`: the `d × 1` column whose row `k` is the sum of row `k` of
      `lin_alg`, that is the inner product of `(2/n)·r` with row `k` of `X`. */
  function SampleAf(th: Matrix, X: Matrix, y: Matrix): (delta: Matrix)
    requires Conformable(th, X, y) && |y[0]| > 0
    ensures IsColumn(delta, |th|)
    ensures forall k :: 0 <= k < |th| ==>
      delta[k][0] == Dot(Scaled(2.0 / (|y[0]| as real), Residual(th, X, y)), X[k])
  {
    var c, r := 2.0 / (|y[0]| as real), Residual(th, X, y);
    var delta := seq(|th|, k requires 0 <= k < |th| => [Sum(LinAlgRow(c, r, X[k]))]);
    assert forall k :: 0 <= k < |th| ==> delta[k][0] == Dot(Scaled(c, r), X[k]) by {
      forall k | 0 <= k < |th| ensures delta[k][0] == Dot(Scaled(c, r), X[k]) {
        LinAlgRowSum(c, r, X[k]);
      }
    }
    delta
  }

  /** As a vector, `Δθ = X·((2/n)·r)`. */
  lemma {:induction false} SampleAfColumn(th: Matrix, X: Matrix, y: Matrix)
    requires Conformable(th, X, y) && |y[0]| > 0
    ensures ColumnVector(SampleAf(th, X, y))
         == TimesColumn(X, Scaled(2.0 / (|y[0]| as real), Residual(th, X, y)))
  {
    var s := Scaled(2.0 / (|y[0]| as real), Residual(th, X, y));
    var delta := ColumnVector(SampleAf(th, X, y));
    forall k | 0 <= k < |th| ensures delta[k] == TimesColumn(X, s)[k] {
      TimesColumnEntry(X, s, k);
    }
  }

  /** `n` times `X·((2/n)·r)` is `X·(2·r)`. */
  lemma {:induction false} ScaleBack(n: nat, r: seq<real>, M: Matrix)
    requires n > 0 && IsMatrix(M, |M|, |r|)
    ensures Scaled(n as real, TimesColumn(M, Scaled(2.0 / (n as real), r))) == TimesColumn(M, Scaled(2.0, r))
  {
    var c := 2.0 / (n as real);
    var lhs, rhs := Scaled(n as real, TimesColumn(M, Scaled(c, r))), TimesColumn(M, Scaled(2.0, r));
    forall k | 0 <= k < |M| ensures lhs[k] == rhs[k] {
      TimesColumnEntry(M, Scaled(c, r), k);
      TimesColumnEntry(M, Scaled(2.0, r), k);
      DotScaledLeft(c, r, M[k]);
      DotScaledLeft(2.0, r, M[k]);
      Cancel(n as real, Dot(r, M[k]));
    }
  }

  /** `m·((2/m)·d) = 2·d` for `m > 0`. */
  lemma Cancel(m: real, d: real)
    requires m > 0.0
    ensures m * (2.0 / m * d) == 2.0 * d
  {
  }

  /** The inner product of a direction `v` with `n·Δθ` is twice the
      correlation of the residual with the prediction of `v`. */
  lemma {:induction false} GradientPairing(th: Matrix, v: Matrix, X: Matrix, y: Matrix)
    requires Conformable(th, X, y) && |y[0]| > 0 && IsColumn(v, |th|)
    ensures Dot(ColumnVector(v), Scaled(|y[0]| as real, ColumnVector(SampleAf(th, X, y))))
         == 2.0 * Dot(Residual(th, X, y), Predict(v, X, |y[0]|))
  {
    var n, r := |y[0]|, Residual(th, X, y);
    SampleAfColumn(th, X, y);
    ScaleBack(n, r, X);
    DotSwap(Scaled(2.0, r), ColumnVector(v), X);
    DotScaledLeft(2.0, r, Predict(v, X, n));
  }

  /** `sample_af` returns `1/n` times the gradient of `error`: after a descent
      step `θ - t·v` in any direction `v`, the error is the quadratic in `t`
      whose linear coefficient is minus the inner product of `v` with
      `n·Δθ`. */
  lemma {:induction false} SampleAfIsGradient(th: Matrix, v: Matrix, moved: Matrix, t: real, X: Matrix, y: Matrix)
    requires Conformable(th, X, y) && |y[0]| > 0 && IsColumn(v, |th|) && IsColumn(moved, |th|)
    requires forall k :: 0 <= k < |th| ==> moved[k][0] == th[k][0] - v[k][0] * t
    ensures Conformable(moved, X, y)
    ensures Error(moved, X, y)
         == Quadratic(Error(th, X, y),
                      -Dot(ColumnVector(v), Scaled(|y[0]| as real, ColumnVector(SampleAf(th, X, y)))),
                      Dot(Predict(v, X, |y[0]|), Predict(v, X, |y[0]|)), t)
  {
    ErrorExpansion(th, v, moved, t, X, y);
    GradientPairing(th, v, X, y);
  }

  /** Where every prediction meets its target, `sample_af` returns the zero column. */
  lemma {:induction false} SampleAfZeroAtFit(th: Matrix, X: Matrix, y: Matrix)
    requires Conformable(th, X, y) && |y[0]| > 0
    requires forall i :: 0 <= i < |y[0]| ==> Predict(th, X, |y[0]|)[i] == y[0][i]
    ensures forall k :: 0 <= k < |th| ==> SampleAf(th, X, y)[k][0] == 0.0
  {
    var s := Scaled(2.0 / (|y[0]| as real), Residual(th, X, y));
    forall k | 0 <= k < |th| ensures Dot(s, X[k]) == 0.0 {
      DotZero(X[k], s);
      DotSymmetric(X[k], s);
    }
  }

  /** The worked example of `sample_af`: `θ = [[1], [1]]`,
      `X = [[1, 2, 3, 4], [1, 4, 9, 16]]`, `y = [[1, 2, 3, 4]]` give `[[50], [177]]`. */
  lemma {:induction false} SampleAfExample()
    ensures Conformable([[1.0], [1.0]], [[1.0, 2.0, 3.0, 4.0], [1.0, 4.0, 9.0, 16.0]], [[1.0, 2.0, 3.0, 4.0]])
    ensures SampleAf([[1.0], [1.0]], [[1.0, 2.0, 3.0, 4.0], [1.0, 4.0, 9.0, 16.0]], [[1.0, 2.0, 3.0, 4.0]])
         == [[50.0], [177.0]]
  {
    var th, X, y := [[1.0], [1.0]], [[1.0, 2.0, 3.0, 4.0], [1.0, 4.0, 9.0, 16.0]], [[1.0, 2.0, 3.0, 4.0]];
    ExamplePredict();
    var r := Residual(th, X, y);
    assert r == [1.0, 4.0, 9.0, 16.0];
    var s := Scaled(2.0 / 4.0, r);
    assert s == [0.5, 2.0, 4.5, 8.0];
    DotOfFour(s, X[0]);
    DotOfFour(s, X[1]);
  }

  /** The predictions of the worked example: `θᵀ·X = [2, 6, 12, 20]`. */
  lemma {:induction false} ExamplePredict()
    ensures Predict([[1.0], [1.0]], [[1.0, 2.0, 3.0, 4.0], [1.0, 4.0, 9.0, 16.0]], 4) == [2.0, 6.0, 12.0, 20.0]
  {
    var th, X := [[1.0], [1.0]], [[1.0, 2.0, 3.0, 4.0], [1.0, 4.0, 9.0, 16.0]];
    var b := ColumnVector(th);
    assert b == [1.0, 1.0];
    var p := Predict(th, X, 4);
    forall i | 0 <= i < 4 ensures p[i] == X[0][i] + X[1][i] {
      RowTimesEntry(b, X, 4, i);
      DotOfTwo(b, Col(X, i));
    }
  }

  /** The inner product of two vectors of length 2, written out. */
  lemma {:induction false} DotOfTwo(a: seq<real>, b: seq<real>)
    requires |a| == |b| == 2
    ensures Dot(a, b) == a[0] * b[0] + a[1] * b[1]
  {
    DotLast(a, b);
    DotLast(a[..1], b[..1]);
    assert a[..1][..0] == [] && b[..1][..0] == [];
  }

  /** The inner product of two vectors of length 4, written out. */
  lemma {:induction false} DotOfFour(a: seq<real>, b: seq<real>)
    requires |a| == |b| == 4
    ensures Dot(a, b) == a[0] * b[0] + a[1] * b[1] + a[2] * b[2] + a[3] * b[3]
  {
    DotLast(a, b);
    DotLast(a[..3], b[..3]);
    assert a[..3][..2] == a[..2] && b[..3][..2] == b[..2];
    DotOfTwo(a[..2], b[..2]);
  }
}
