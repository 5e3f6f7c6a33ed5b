/** Turning raw `(x, y)` samples into the design matrix of a polynomial fit
    (`make_dim_data`). Row `dimension - 1 - d` of the design matrix holds the
    `d`-th powers of the sample points, so the bottom row is all ones and a
    coefficient column `θ` lists the coefficients highest degree first. */
module Features {
  import opened Numeric

  /** One raw data point `(x, y)`. */
  datatype Sample = Sample(x: real, y: real)

  /** The `dimension × n` design matrix: entry `[dimension - 1 - d][i]` is `x_i ** d`. */
  function DesignMatrix(data: seq<Sample>, dimension: nat): (X: Matrix)
    ensures IsMatrix(X, dimension, |data|)
  {
    seq(dimension, r requires 0 <= r < dimension =>
      seq(|data|, i requires 0 <= i < |data| => Pow(data[i].x, dimension - 1 - r)))
  }

  /** The `1 × n` matrix of targets `y_i`. */
  function Targets(data: seq<Sample>): (Y: Matrix)
    ensures IsMatrix(Y, 1, |data|)
  {
    [seq(|data|, i requires 0 <= i < |data| => data[i].y)]
  }

  /** The contents of a two-dimensional array, row by row. */
  function Rows(a: array2<real>): (m: Matrix)
    reads a
    ensures IsMatrix(m, a.Length0, a.Length1)
  {
    seq(a.Length0, r requires 0 <= r < a.Length0 reads a =>
      seq(a.Length1, c requires 0 <= c < a.Length1 reads a => a[r, c]))
  }

  /** `make_dim_data`: fills a `dimension × n` array with the powers of the
      sample points, column by column, and a `1 × n` array with the targets. */
  method MakeDimData(data: seq<Sample>, dimension: nat) returns (X: array2<real>, Y: array2<real>)
    ensures fresh(X) && fresh(Y)
    ensures X.Length0 == dimension && X.Length1 == |data|
    ensures Y.Length0 == 1 && Y.Length1 == |data|
    ensures Rows(X) == DesignMatrix(data, dimension)
    ensures Rows(Y) == Targets(data)
  {
    var n := |data|;
    X := new real[dimension, n]((_, _) => 0.0);
    Y := new real[1, n]((_, _) => 0.0);
    var i := 0;
    while i < n
      invariant 0 <= i <= n
      invariant X != Y
      invariant forall r, c :: 0 <= r < dimension && 0 <= c < i ==> X[r, c] == Pow(data[c].x, dimension - 1 - r)
      invariant forall c :: 0 <= c < i ==> Y[0, c] == data[c].y
    {
      var x, y := data[i].x, data[i].y;
      Y[0, i] := y;
      var d := 0;
      while d < dimension
        invariant 0 <= d <= dimension
        invariant forall r, c :: 0 <= r < dimension && 0 <= c < i ==> X[r, c] == Pow(data[c].x, dimension - 1 - r)
        invariant forall e :: 0 <= e < d ==> X[dimension - 1 - e, i] == Pow(x, e)
        invariant forall c :: 0 <= c <= i ==> Y[0, c] == data[c].y
      {
        X[dimension - d - 1, i] := Pow(x, d);
        d := d + 1;
      }
      forall r | 0 <= r < dimension ensures X[r, i] == Pow(data[i].x, dimension - 1 - r) {
        var e := dimension - 1 - r;
        assert X[dimension - 1 - e, i] == Pow(x, e);
      }
      i := i + 1;
    }
    RowsAre(X, DesignMatrix(data, dimension));
    RowsAre(Y, Targets(data));
  }

  /** An array whose entries are those of `m`, position by position, holds `m`. */
  lemma RowsAre(a: array2<real>, m: Matrix)
    requires IsMatrix(m, a.Length0, a.Length1)
    requires forall r, c :: 0 <= r < a.Length0 && 0 <= c < a.Length1 ==> a[r, c] == m[r][c]
    ensures Rows(a) == m
  {
    forall r | 0 <= r < a.Length0 ensures Rows(a)[r] == m[r] {
      assert forall c :: 0 <= c < a.Length1 ==> Rows(a)[r][c] == m[r][c];
    }
  }

  /** `[x ** (k - 1), …, x, 1]`: column `i` of a `k`-row design matrix at `x = x_i`. */
  function Powers(k: nat, x: real): (p: seq<real>)
    ensures |p| == k
  {
    seq(k, r requires 0 <= r < k => Pow(x, k - 1 - r))
  }

  /** A polynomial evaluated at `x` by Horner's rule, coefficients highest degree first. */
  function PolyVal(c: seq<real>, x: real): real
    decreases |c|
  {
    if |c| == 0 then 0.0 else PolyVal(c[..|c| - 1], x) * x + c[|c| - 1]
  }

  /** Entry `[dimension - 1 - d][i]` of the design matrix is `x_i ** d`, and
      the targets are the `y_i` in order. */
  lemma {:induction false} DesignMatrixEntry(data: seq<Sample>, dimension: nat, d: nat, i: nat)
    requires d < dimension && i < |data|
    ensures DesignMatrix(data, dimension)[dimension - 1 - d][i] == Pow(data[i].x, d)
    ensures Targets(data)[0][i] == data[i].y
  {
  }

  /** Column `i` of the design matrix is the vector of powers of `x_i`. */
  lemma {:induction false} DesignMatrixColumn(data: seq<Sample>, dimension: nat, i: nat)
    requires i < |data|
    ensures Col(DesignMatrix(data, dimension), i) == Powers(dimension, data[i].x)
  {
  }

  /** Dropping the constant term from the powers of `x` leaves `x` times the
      powers one degree lower. */
  lemma {:induction false} PowersStep(k: nat, x: real)
    requires k > 0
    ensures Powers(k, x)[k - 1] == 1.0
    ensures forall r :: 0 <= r < k - 1 ==> Powers(k, x)[r] == x * Powers(k - 1, x)[r]
  {
    var p, q := Powers(k, x), Powers(k - 1, x);
    assert p[k - 1] == Pow(x, 0);
    forall r | 0 <= r < k - 1 ensures p[r] == x * q[r] {
      var e := k - 2 - r;
      assert p[r] == Pow(x, e + 1);
      assert q[r] == Pow(x, e);
    }
  }

  /** The inner product of a coefficient vector with the powers of `x` is the
      polynomial with those coefficients, evaluated at `x`. */
  lemma {:induction false} DotPowers(c: seq<real>, x: real)
    ensures Dot(c, Powers(|c|, x)) == PolyVal(c, x)
    decreases |c|
  {
    if |c| > 0 {
      var m := |c| - 1;
      var p := Powers(|c|, x);
      DotPowers(c[..m], x);
      PowersStep(|c|, x);
      DotScaled(c[..m], Powers(m, x), p[..m], x);
    }
  }

  /** The example of `make_dim_data` with the samples `(1,2), (2,4), (3,2), (4,1)` at dimension 3. */
  lemma {:induction false} MakeDimDataExample()
    ensures DesignMatrix([Sample(1.0, 2.0), Sample(2.0, 4.0), Sample(3.0, 2.0), Sample(4.0, 1.0)], 3)
         == [[1.0, 4.0, 9.0, 16.0], [1.0, 2.0, 3.0, 4.0], [1.0, 1.0, 1.0, 1.0]]
    ensures Targets([Sample(1.0, 2.0), Sample(2.0, 4.0), Sample(3.0, 2.0), Sample(4.0, 1.0)])
         == [[2.0, 4.0, 2.0, 1.0]]
  {
    var data := [Sample(1.0, 2.0), Sample(2.0, 4.0), Sample(3.0, 2.0), Sample(4.0, 1.0)];
    var X := DesignMatrix(data, 3);
    assert Pow(2.0, 2) == 4.0 && Pow(3.0, 2) == 9.0 && Pow(4.0, 2) == 16.0 && Pow(1.0, 2) == 1.0;
    assert Pow(2.0, 1) == 2.0 && Pow(3.0, 1) == 3.0 && Pow(4.0, 1) == 4.0 && Pow(1.0, 1) == 1.0;
    assert X[0] == [1.0, 4.0, 9.0, 16.0];
    assert X[1] == [1.0, 2.0, 3.0, 4.0];
    assert X[2] == [1.0, 1.0, 1.0, 1.0];
    assert Targets(data)[0] == [2.0, 4.0, 2.0, 1.0];
  }
}
