/** Exact real arithmetic on the matrices the fitting script passes around.
    A matrix is a sequence of rows; its shape is stated by a predicate, in the
    way numpy's `shape` attribute would report it. */
module Numeric {

  type Matrix = seq<seq<real>>

  /** `m` has `rows` rows of `cols` entries each (numpy: `m.shape == (rows, cols)`). */
  predicate IsMatrix(m: Matrix, rows: nat, cols: nat) {
    |m| == rows && forall r :: 0 <= r < rows ==> |m[r]| == cols
  }

  /** `c` is a `rows × 1` column vector. */
  predicate IsColumn(c: Matrix, rows: nat) {
    IsMatrix(c, rows, 1)
  }

  /** `np.zeros((rows, cols))`. */
  function Zeros(rows: nat, cols: nat): (m: Matrix)
    ensures IsMatrix(m, rows, cols)
    ensures forall r, c :: 0 <= r < rows && 0 <= c < cols ==> m[r][c] == 0.0
  {
    seq(rows, _ => seq(cols, _ => 0.0))
  }

  /** The entries of a column vector, top to bottom. */
  function ColumnVector(c: Matrix): (v: seq<real>)
    requires IsColumn(c, |c|)
    ensures |v| == |c|
    ensures forall k :: 0 <= k < |c| ==> v[k] == c[k][0]
  {
    seq(|c|, k requires 0 <= k < |c| => c[k][0])
  }

  /** Column `i` of `m`, top to bottom. */
  function Col(m: Matrix, i: nat): (v: seq<real>)
    requires forall r :: 0 <= r < |m| ==> i < |m[r]|
    ensures |v| == |m|
    ensures forall r :: 0 <= r < |m| ==> v[r] == m[r][i]
  {
    seq(|m|, r requires 0 <= r < |m| => m[r][i])
  }

  /** `x ** k` for a natural exponent: `0 ** 0` is 1 and `0 ** k` is 0 for
      every other `k`, and `1 ** k` is 1. */
  function Pow(x: real, k: nat): (p: real)
    ensures x == 0.0 ==> p == (if k == 0 then 1.0 else 0.0)
    ensures x == 1.0 ==> p == 1.0
  {
    if k == 0 then 1.0 else x * Pow(x, k - 1)
  }

  /** `x ** (i + j) == x ** i * x ** j`. */
  lemma {:induction false} PowAdd(x: real, i: nat, j: nat)
    ensures Pow(x, i + j) == Pow(x, i) * Pow(x, j)
    decreases j
  {
    if j > 0 {
      PowAdd(x, i, j - 1);
      Regroup(x, Pow(x, i), Pow(x, j - 1));
    }
  }

  /** `x·(a·b) = a·(x·b)`. */
  lemma Regroup(x: real, a: real, b: real)
    ensures x * (a * b) == a * (x * b)
  {
  }

  /** `np.sum` of a vector. */
  function Sum(s: seq<real>): real
    decreases |s|
  {
    if |s| == 0 then 0.0 else Sum(s[..|s| - 1]) + s[|s| - 1]
  }

  /** Summing a concatenation sums the two parts. */
  lemma {:induction false} SumAppend(a: seq<real>, b: seq<real>)
    ensures Sum(a + b) == Sum(a) + Sum(b)
    decreases |b|
  {
    if |b| > 0 {
      var m := |b| - 1;
      SumAppend(a, b[..m]);
      assert (a + b)[..|a + b| - 1] == a + b[..m];
    } else {
      assert a + b == a;
    }
  }

  /** The inner product of two vectors of the same length. It is a plain
      name for `DotRec`, so that a proof can mention an inner product without
      the definition being unrolled. */
  function Dot(a: seq<real>, b: seq<real>): real
    requires |a| == |b|
  {
    DotRec(a, b)
  }

  /** Peeling off the last entries of both vectors. */
  lemma DotLast(a: seq<real>, b: seq<real>)
    requires |a| == |b| > 0
    ensures Dot(a, b) == Dot(a[..|a| - 1], b[..|b| - 1]) + a[|a| - 1] * b[|b| - 1]
  {
  }

  /** `Σ a[i]·b[i]`, by recursion on the last entries. */
  function DotRec(a: seq<real>, b: seq<real>): real
    requires |a| == |b|
    decreases |a|
  {
    if |a| == 0 then 0.0 else DotRec(a[..|a| - 1], b[..|b| - 1]) + a[|a| - 1] * b[|b| - 1]
  }

  /** Summing the entries `a[i] * b[i]` gives the inner product of `a` and `b`. */
  lemma {:induction false} SumIsDot(a: seq<real>, b: seq<real>, w: seq<real>)
    requires |a| == |b| == |w|
    requires forall i :: 0 <= i < |w| ==> w[i] == a[i] * b[i]
    ensures Sum(w) == Dot(a, b)
    decreases |w|
  {
    if |w| > 0 {
      var m := |w| - 1;
      SumIsDot(a[..m], b[..m], w[..m]);
    }
  }

  lemma {:induction false} DotSymmetric(a: seq<real>, b: seq<real>)
    requires |a| == |b|
    ensures Dot(a, b) == Dot(b, a)
    decreases |a|
  {
    if |a| > 0 {
      DotSymmetric(a[..|a| - 1], b[..|b| - 1]);
    }
  }

  /** A vector of zeros in the second place makes the inner product zero. */
  lemma {:induction false} DotZero(a: seq<real>, b: seq<real>)
    requires |a| == |b|
    requires forall i :: 0 <= i < |b| ==> b[i] == 0.0
    ensures Dot(a, b) == 0.0
    decreases |a|
  {
    if |a| > 0 {
      DotZero(a[..|a| - 1], b[..|b| - 1]);
    }
  }

  lemma {:induction false} DotAddScaled(a: seq<real>, u: seq<real>, v: seq<real>, w: seq<real>, q: real)
    requires |a| == |u| == |v| == |w|
    requires forall i :: 0 <= i < |w| ==> w[i] == u[i] + q * v[i]
    ensures Dot(a, w) == Dot(a, u) + q * Dot(a, v)
    decreases |a|
  {
    if |a| > 0 {
      var m := |a| - 1;
      DotAddScaled(a[..m], u[..m], v[..m], w[..m], q);
      assert a[m] * w[m] == a[m] * u[m] + q * (a[m] * v[m]);
    }
  }

  /** `x ** 2`. */
  function Square(x: real): real
  {
    x * x
  }

  /** A square is never negative, and it is positive away from zero. The
      steps go through `calc` so that the facts come out about `Square(x)`. */
  lemma {:induction false} SquareSign(x: real)
    ensures Square(x) >= 0.0
    ensures x != 0.0 ==> Square(x) > 0.0
  {
    if x > 0.0 {
      calc { Square(x); x * x; > 0.0; }
    } else if x < 0.0 {
      calc { Square(x); x * x; > 0.0; }
    } else {
      calc { Square(x); x * x; == 0.0; }
    }
  }

  lemma {:induction false} DotSelfNonNegative(v: seq<real>)
    ensures Dot(v, v) >= 0.0
    decreases |v|
  {
    if |v| > 0 {
      var m := |v| - 1;
      assert Dot(v, v) == Dot(v[..m], v[..m]) + Square(v[m]);
      DotSelfNonNegative(v[..m]);
      SquareSign(v[m]);
    }
  }

  /** One nonzero entry makes the squared norm strictly positive. */
  lemma {:induction false} DotSelfPositive(v: seq<real>, i: nat)
    requires i < |v|
    ensures v[i] != 0.0 ==> Dot(v, v) > 0.0
    decreases |v|
  {
    var m := |v| - 1;
    assert Dot(v, v) == Dot(v[..m], v[..m]) + Square(v[m]);
    DotSelfNonNegative(v[..m]);
    SquareSign(v[m]);
    if i < m {
      assert v[..m][i] == v[i];
      DotSelfPositive(v[..m], i);
    }
  }

  /** The squared norm is never negative, and it is zero exactly at the zero vector. */
  lemma {:induction false} DotSelf(v: seq<real>)
    ensures Dot(v, v) >= 0.0
    ensures Dot(v, v) == 0.0 <==> forall i :: 0 <= i < |v| ==> v[i] == 0.0
  {
    DotSelfNonNegative(v);
    forall i | 0 <= i < |v| ensures Dot(v, v) == 0.0 ==> v[i] == 0.0 {
      DotSelfPositive(v, i);
    }
    if forall i :: 0 <= i < |v| ==> v[i] == 0.0 {
      DotZero(v, v);
    }
  }

  /** Splitting the last row off `M` splits the inner product of `b` with a column of `M`. */
  lemma {:induction false} DotLastColumn(b: seq<real>, M: Matrix, i: nat)
    requires |b| == |M| > 0
    requires forall r :: 0 <= r < |M| ==> i < |M[r]|
    ensures Dot(b, Col(M, i)) == Dot(b[..|b| - 1], Col(M[..|M| - 1], i)) + b[|b| - 1] * M[|M| - 1][i]
  {
    var column := Col(M, i);
    assert column[..|M| - 1] == Col(M[..|M| - 1], i);
  }

  /** `u + q·v`, entry by entry. */
  function AddScaled(u: seq<real>, q: real, v: seq<real>): (w: seq<real>)
    requires |u| == |v|
    ensures |w| == |u|
    ensures forall i :: 0 <= i < |w| ==> w[i] == u[i] + q * v[i]
  {
    seq(|u|, i requires 0 <= i < |u| => u[i] + q * v[i])
  }

  /** Adding `q·v` to the second argument adds `q·(a·v)` to the inner product. */
  lemma {:induction false} DotOfAddScaled(a: seq<real>, u: seq<real>, q: real, v: seq<real>)
    requires |a| == |u| == |v|
    ensures Dot(a, AddScaled(u, q, v)) == Dot(a, u) + q * Dot(a, v)
  {
    DotAddScaled(a, u, v, AddScaled(u, q, v), q);
  }

  /** The row vector `bᵀ·M` of `n` entries, built as the combination of the
      rows of `M` weighted by `b`, one row at a time. */
  function RowTimes(b: seq<real>, M: Matrix, n: nat): (p: seq<real>)
    requires IsMatrix(M, |b|, n)
    ensures |p| == n
    decreases |b|
  {
    if |b| == 0 then seq(n, _ => 0.0)
    else AddScaled(RowTimes(b[..|b| - 1], M[..|b| - 1], n), b[|b| - 1], M[|b| - 1])
  }

  /** Entry `i` of `bᵀ·M` is the inner product of `b` with column `i` of `M`. */
  lemma {:induction false} RowTimesEntry(b: seq<real>, M: Matrix, n: nat, i: nat)
    requires IsMatrix(M, |b|, n) && i < n
    ensures RowTimes(b, M, n)[i] == Dot(b, Col(M, i))
    decreases |b|
  {
    if |b| > 0 {
      var m := |b| - 1;
      RowTimesEntry(b[..m], M[..m], n, i);
      DotLastColumn(b, M, i);
    }
  }

  /** The column vector `M·a`, one entry per row of `M`. */
  function TimesColumn(M: Matrix, a: seq<real>): (q: seq<real>)
    requires IsMatrix(M, |M|, |a|)
    ensures |q| == |M|
    decreases |M|
  {
    if |M| == 0 then [] else TimesColumn(M[..|M| - 1], a) + [Dot(a, M[|M| - 1])]
  }

  /** Entry `k` of `M·a` is the inner product of `a` with row `k` of `M`. */
  lemma {:induction false} TimesColumnEntry(M: Matrix, a: seq<real>, k: nat)
    requires IsMatrix(M, |M|, |a|) && k < |M|
    ensures TimesColumn(M, a)[k] == Dot(a, M[k])
    decreases |M|
  {
    var m := |M| - 1;
    if k < m {
      TimesColumnEntry(M[..m], a, k);
    }
  }

  /** Splitting the last row off `M` in `aᵀ·(bᵀ·M)ᵀ`. */
  lemma {:induction false} DotRowTimesSplit(a: seq<real>, b: seq<real>, M: Matrix)
    requires IsMatrix(M, |b|, |a|) && |b| > 0
    ensures Dot(a, RowTimes(b, M, |a|))
         == Dot(a, RowTimes(b[..|b| - 1], M[..|b| - 1], |a|)) + b[|b| - 1] * Dot(a, M[|b| - 1])
  {
    var m := |b| - 1;
    DotOfAddScaled(a, RowTimes(b[..m], M[..m], |a|), b[m], M[m]);
  }

  /** Appending one entry `x` to the second argument adds `b[last]·x`. */
  lemma {:induction false} DotSnoc(b: seq<real>, s: seq<real>, x: real)
    requires |b| == |s| + 1
    ensures Dot(b, s + [x]) == Dot(b[..|b| - 1], s) + b[|b| - 1] * x
  {
    assert (s + [x])[..|s|] == s;
  }

  /** Splitting the last row off `M` in `bᵀ·(M·a)`. */
  lemma {:induction false} DotTimesColumnSplit(a: seq<real>, b: seq<real>, M: Matrix)
    requires IsMatrix(M, |b|, |a|) && |b| > 0
    ensures Dot(b, TimesColumn(M, a)) == Dot(b[..|b| - 1], TimesColumn(M[..|b| - 1], a)) + b[|b| - 1] * Dot(a, M[|b| - 1])
  {
    DotSnoc(b, TimesColumn(M[..|b| - 1], a), Dot(a, M[|b| - 1]));
  }

  /** Exchanging the order of a double sum over a matrix `M`:
      `Σ_i a[i] · Σ_k b[k]·M[k][i]  ==  Σ_k b[k] · Σ_i a[i]·M[k][i]`. */
  lemma {:induction false} DotSwap(a: seq<real>, b: seq<real>, M: Matrix)
    requires IsMatrix(M, |b|, |a|)
    ensures Dot(a, RowTimes(b, M, |a|)) == Dot(b, TimesColumn(M, a))
    decreases |b|
  {
    if |b| == 0 {
      DotZero(a, RowTimes(b, M, |a|));
    } else {
      var m := |b| - 1;
      DotSwap(a, b[..m], M[..m]);
      DotRowTimesSplit(a, b, M);
      DotTimesColumnSplit(a, b, M);
    }
  }

  /** A zero weight vector gives the zero row. */
  lemma {:induction false} RowTimesZero(b: seq<real>, M: Matrix, n: nat)
    requires IsMatrix(M, |b|, n)
    requires forall k :: 0 <= k < |b| ==> b[k] == 0.0
    ensures forall i :: 0 <= i < n ==> RowTimes(b, M, n)[i] == 0.0
  {
    forall i | 0 <= i < n ensures RowTimes(b, M, n)[i] == 0.0 {
      RowTimesEntry(b, M, n, i);
      DotSymmetric(b, Col(M, i));
      DotZero(Col(M, i), b);
    }
  }

  /** Scaling the second argument scales the inner product. */
  lemma {:induction false} DotScaled(a: seq<real>, u: seq<real>, w: seq<real>, c: real)
    requires |a| == |u| == |w|
    requires forall i :: 0 <= i < |w| ==> w[i] == c * u[i]
    ensures Dot(a, w) == c * Dot(a, u)
    decreases |a|
  {
    if |a| > 0 {
      var m := |a| - 1;
      DotScaled(a[..m], u[..m], w[..m], c);
      assert a[m] * w[m] == c * (a[m] * u[m]);
    }
  }

  /** The sum of the squares of the entries of `r` is its squared norm. */
  lemma {:induction false} SumOfSquares(r: seq<real>, w: seq<real>)
    requires |r| == |w|
    requires forall i :: 0 <= i < |w| ==> w[i] == Square(r[i])
    ensures Sum(w) == Dot(r, r)
    decreases |w|
  {
    if |w| > 0 {
      var m := |w| - 1;
      SumOfSquares(r[..m], w[..m]);
    }
  }

  /** Adding `q·v` to the first argument adds `q·(v·b)` to the inner product. */
  lemma {:induction false} DotOfAddScaledLeft(u: seq<real>, q: real, v: seq<real>, b: seq<real>)
    requires |b| == |u| == |v|
    ensures Dot(AddScaled(u, q, v), b) == Dot(u, b) + q * Dot(v, b)
  {
    DotSymmetric(AddScaled(u, q, v), b);
    DotOfAddScaled(b, u, q, v);
    DotSymmetric(b, u);
    DotSymmetric(b, v);
  }

  /** The quadratic `c0 + c1·t + c2·t²`. */
  function Quadratic(c0: real, c1: real, c2: real, t: real): real
  {
    c0 + c1 * t + c2 * t * t
  }

  /** `‖r + t·p‖² = ‖r‖² + 2t·⟨r, p⟩ + t²·‖p‖²`. */
  lemma {:induction false} DotExpandSquare(r: seq<real>, t: real, p: seq<real>)
    requires |r| == |p|
    ensures Dot(AddScaled(r, t, p), AddScaled(r, t, p)) == Dot(r, r) + 2.0 * t * Dot(r, p) + t * t * Dot(p, p)
  {
    DotOfAddScaled(AddScaled(r, t, p), r, t, p);
    DotOfAddScaledLeft(r, t, p, r);
    DotOfAddScaledLeft(r, t, p, p);
    DotSymmetric(p, r);
    ExpandSquare(Dot(AddScaled(r, t, p), AddScaled(r, t, p)), Dot(AddScaled(r, t, p), r), Dot(AddScaled(r, t, p), p),
      Dot(r, r), Dot(r, p), Dot(p, p), t);
  }

  /** `DotExpandSquare` read as a quadratic in `t`. */
  lemma {:induction false} DotQuadratic(r: seq<real>, t: real, p: seq<real>)
    requires |r| == |p|
    ensures Dot(AddScaled(r, t, p), AddScaled(r, t, p)) == Quadratic(Dot(r, r), 2.0 * Dot(r, p), Dot(p, p), t)
  {
    DotExpandSquare(r, t, p);
  }

  /** Stepping from `r` against `p` by `t`: `‖r - t·p‖²` is the quadratic in `t`
      with coefficients `‖r‖²`, `-2·⟨r, p⟩` and `‖p‖²`. */
  lemma {:induction false} DotDescentQuadratic(r: seq<real>, t: real, p: seq<real>)
    requires |r| == |p|
    ensures Dot(AddScaled(r, -t, p), AddScaled(r, -t, p)) == Quadratic(Dot(r, r), -2.0 * Dot(r, p), Dot(p, p), t)
  {
    DotQuadratic(r, -t, p);
    QuadraticReflect(Dot(r, r), 2.0 * Dot(r, p), Dot(p, p), t);
  }

  /** Evaluating a quadratic at `-t` is evaluating the one with the linear coefficient negated at `t`. */
  lemma QuadraticReflect(c0: real, c1: real, c2: real, t: real)
    ensures Quadratic(c0, c1, c2, -t) == Quadratic(c0, -c1, c2, t)
  {
  }

  /** `c·v`, entry by entry. */
  function Scaled(c: real, v: seq<real>): (w: seq<real>)
    ensures |w| == |v|
    ensures forall i :: 0 <= i < |w| ==> w[i] == c * v[i]
  {
    seq(|v|, i requires 0 <= i < |v| => c * v[i])
  }

  /** Scaling the first argument scales the inner product. */
  lemma {:induction false} DotScaledLeft(c: real, a: seq<real>, b: seq<real>)
    requires |a| == |b|
    ensures Dot(Scaled(c, a), b) == c * Dot(a, b)
  {
    DotSymmetric(Scaled(c, a), b);
    DotScaled(b, a, Scaled(c, a), c);
    DotSymmetric(b, a);
  }

  /** The algebra behind `DotExpandSquare`, once its three inner-product steps are known. */
  lemma ExpandSquare(whole: real, left: real, right: real, rr: real, rp: real, pp: real, t: real)
    ensures whole == left + t * right && left == rr + t * rp && right == rp + t * pp
        ==> whole == rr + 2.0 * t * rp + t * t * pp
  {
  }

  /** `bᵀ·M` is linear in `b`, entry `i`. */
  lemma {:induction false} RowTimesAddScaledAt(u: seq<real>, q: real, v: seq<real>, M: Matrix, n: nat, i: nat)
    requires |u| == |v| && IsMatrix(M, |u|, n) && i < n
    ensures RowTimes(AddScaled(u, q, v), M, n)[i] == RowTimes(u, M, n)[i] + q * RowTimes(v, M, n)[i]
  {
    var column := Col(M, i);
    RowTimesEntry(AddScaled(u, q, v), M, n, i);
    RowTimesEntry(u, M, n, i);
    RowTimesEntry(v, M, n, i);
    DotOfAddScaledLeft(u, q, v, column);
  }

  /** `bᵀ·M` is linear in `b`: `(u + q·v)ᵀ·M == uᵀ·M + q·(vᵀ·M)`. */
  lemma {:induction false} RowTimesAddScaled(u: seq<real>, q: real, v: seq<real>, M: Matrix, n: nat)
    requires |u| == |v| && IsMatrix(M, |u|, n)
    ensures RowTimes(AddScaled(u, q, v), M, n) == AddScaled(RowTimes(u, M, n), q, RowTimes(v, M, n))
  {
    forall i | 0 <= i < n
      ensures RowTimes(AddScaled(u, q, v), M, n)[i] == AddScaled(RowTimes(u, M, n), q, RowTimes(v, M, n))[i]
    {
      RowTimesAddScaledAt(u, q, v, M, n, i);
    }
  }
}
