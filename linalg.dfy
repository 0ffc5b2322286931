/** Exact dense linear algebra over `real`: the NumPy array operations the
    regression protocol uses (sums of arrays, transposes, products), with
    matrices as sequences of rows. */
module LinAlg {

  type Vector = seq<real>
  type Matrix = seq<seq<real>>

  /** Every row of `m` has `cols` entries. */
  predicate Cols(m: Matrix, cols: nat) {
    forall i :: 0 <= i < |m| ==> |m[i]| == cols
  }

  /** `m` is an array of shape (rows, cols). */
  predicate IsMatrix(m: Matrix, rows: nat, cols: nat) {
    |m| == rows && Cols(m, cols)
  }

  /** Every element of `ms` has shape (rows, cols). */
  predicate AllMatrices(ms: seq<Matrix>, rows: nat, cols: nat) {
    forall k :: 0 <= k < |ms| ==> IsMatrix(ms[k], rows, cols)
  }

  /** Every element of `vs` has length `len`. */
  predicate AllVectors(vs: seq<Vector>, len: nat) {
    forall k :: 0 <= k < |vs| ==> |vs[k]| == len
  }

  /** Python's `sum` over a list of numbers, folded from the left starting at 0. */
  function Sum(s: seq<real>): real
    decreases |s|
  {
    if |s| == 0 then 0.0 else Sum(s[..|s| - 1]) + s[|s| - 1]
  }

  lemma {:induction false} SumAppend(a: seq<real>, b: seq<real>)
    ensures Sum(a + b) == Sum(a) + Sum(b)
  {
    if |b| == 0 {
      assert a + b == a;
    } else {
      assert (a + b)[..|a + b| - 1] == a + b[..|b| - 1];
      SumAppend(a, b[..|b| - 1]);
    }
  }

  function Zero(rows: nat, cols: nat): (z: Matrix)
    ensures IsMatrix(z, rows, cols)
  {
    seq(rows, i => seq(cols, j => 0.0))
  }

  /** Element-wise `a + b` of two arrays of the same shape. */
  function Add(a: Matrix, b: Matrix, rows: nat, cols: nat): (s: Matrix)
    requires IsMatrix(a, rows, cols) && IsMatrix(b, rows, cols)
    ensures IsMatrix(s, rows, cols)
  {
    seq(rows, i requires 0 <= i < rows => seq(cols, j requires 0 <= j < cols => a[i][j] + b[i][j]))
  }

  /** Python's `sum(ms)` over a list of arrays of one shape: `0 + ms[0] + ms[1] + ...`. */
  function SumMatrices(ms: seq<Matrix>, rows: nat, cols: nat): (s: Matrix)
    requires AllMatrices(ms, rows, cols)
    ensures IsMatrix(s, rows, cols)
    decreases |ms|
  {
    if |ms| == 0 then Zero(rows, cols)
    else Add(SumMatrices(ms[..|ms| - 1], rows, cols), ms[|ms| - 1], rows, cols)
  }

  /** The entries at position (i, j) of every array in `ms`, in list order. */
  function Entries(ms: seq<Matrix>, rows: nat, cols: nat, i: nat, j: nat): (e: seq<real>)
    requires AllMatrices(ms, rows, cols) && i < rows && j < cols
    ensures |e| == |ms|
  {
    seq(|ms|, k requires 0 <= k < |ms| => ms[k][i][j])
  }

  /** The sum of arrays is taken entry by entry. */
  lemma {:induction false} SumMatricesEntry(ms: seq<Matrix>, rows: nat, cols: nat, i: nat, j: nat)
    requires AllMatrices(ms, rows, cols) && i < rows && j < cols
    ensures SumMatrices(ms, rows, cols)[i][j] == Sum(Entries(ms, rows, cols, i, j))
  {
    if |ms| > 0 {
      var n := |ms|;
      assert Entries(ms[..n - 1], rows, cols, i, j) == Entries(ms, rows, cols, i, j)[..n - 1];
      SumMatricesEntry(ms[..n - 1], rows, cols, i, j);
    }
  }

  /** Two arrays of one shape that agree entry by entry are equal. */
  lemma MatrixExt(a: Matrix, b: Matrix, rows: nat, cols: nat)
    requires IsMatrix(a, rows, cols) && IsMatrix(b, rows, cols)
    requires forall i, j :: 0 <= i < rows && 0 <= j < cols ==> a[i][j] == b[i][j]
    ensures a == b
  {
    forall i | 0 <= i < rows
      ensures a[i] == b[i]
    {
      assert |a[i]| == |b[i]| == cols;
    }
  }

  /** Summing a single array gives that array back (`0 + m == m`). */
  lemma SumOfOne(m: Matrix, rows: nat, cols: nat)
    requires IsMatrix(m, rows, cols)
    ensures SumMatrices([m], rows, cols) == m
  {
    var s := SumMatrices([m], rows, cols);
    assert [m][..|[m]| - 1] == [] && [m][|[m]| - 1] == m;
    assert SumMatrices([], rows, cols) == Zero(rows, cols);
    assert s == Add(Zero(rows, cols), m, rows, cols);
    forall i, j | 0 <= i < rows && 0 <= j < cols
      ensures s[i][j] == m[i][j]
    {
      assert s[i][j] == Zero(rows, cols)[i][j] + m[i][j];
    }
    MatrixExt(s, m, rows, cols);
  }

  /** Python's `sum(vs)` over a list of one-dimensional arrays of one length. */
  function SumVectors(vs: seq<Vector>, len: nat): (s: Vector)
    requires AllVectors(vs, len)
    ensures |s| == len
    decreases |vs|
  {
    if |vs| == 0 then seq(len, j => 0.0)
    else
      var prefix := SumVectors(vs[..|vs| - 1], len);
      seq(len, j requires 0 <= j < len => prefix[j] + vs[|vs| - 1][j])
  }

  /** The entries at position j of every vector in `vs`, in list order. */
  function VectorEntries(vs: seq<Vector>, len: nat, j: nat): (e: seq<real>)
    requires AllVectors(vs, len) && j < len
    ensures |e| == |vs|
  {
    seq(|vs|, k requires 0 <= k < |vs| => vs[k][j])
  }

  /** The sum of vectors is taken entry by entry. */
  lemma {:induction false} SumVectorsEntry(vs: seq<Vector>, len: nat, j: nat)
    requires AllVectors(vs, len) && j < len
    ensures SumVectors(vs, len)[j] == Sum(VectorEntries(vs, len, j))
  {
    if |vs| > 0 {
      var n := |vs|;
      assert VectorEntries(vs[..n - 1], len, j) == VectorEntries(vs, len, j)[..n - 1];
      SumVectorsEntry(vs[..n - 1], len, j);
    }
  }

  /** `m.T` */
  function Transpose(m: Matrix, cols: nat): (t: Matrix)
    requires Cols(m, cols)
    ensures IsMatrix(t, cols, |m|)
  {
    seq(cols, j requires 0 <= j < cols => seq(|m|, i requires 0 <= i < |m| => m[i][j]))
  }

  /** `m[:, j]` */
  function Column(m: Matrix, cols: nat, j: nat): (c: Vector)
    requires Cols(m, cols) && j < cols
    ensures |c| == |m|
  {
    seq(|m|, i requires 0 <= i < |m| => m[i][j])
  }

  function Dot(a: Vector, b: Vector): real
    requires |a| == |b|
  {
    Sum(seq(|a|, k requires 0 <= k < |a| => a[k] * b[k]))
  }

  /** `a @ x` for a matrix and a vector. */
  function MatVec(a: Matrix, x: Vector): (y: Vector)
    requires Cols(a, |x|)
    ensures |y| == |a|
  {
    seq(|a|, i requires 0 <= i < |a| => Dot(a[i], x))
  }

  /** `a @ b` for an array `a` with |b| columns and an array `b` with `cols` columns. */
  function MatMul(a: Matrix, b: Matrix, cols: nat): (c: Matrix)
    requires Cols(a, |b|) && Cols(b, cols)
    ensures IsMatrix(c, |a|, cols)
  {
    seq(|a|, i requires 0 <= i < |a| => seq(cols, j requires 0 <= j < cols => Dot(a[i], Column(b, cols, j))))
  }

  /** `a.T @ b` for two arrays with the same rows: `XᵗX` when `b` is `a`, `Xᵗy` when `b` holds responses. */
  function CrossProduct(a: Matrix, b: Matrix, p: nat, c: nat): (g: Matrix)
    requires |a| == |b| && Cols(a, p) && Cols(b, c)
    ensures IsMatrix(g, p, c)
  {
    MatMul(Transpose(a, p), b, c)
  }

  /** `XᵗX` */
  function Gram(x: Matrix, p: nat): (g: Matrix)
    requires Cols(x, p)
    ensures IsMatrix(g, p, p)
  {
    CrossProduct(x, x, p, p)
  }

  /** The terms a[r][s] * b[r][t] over the rows r, whose sum is entry (s, t) of `a.T @ b`. */
  function RowProducts(a: Matrix, b: Matrix, p: nat, c: nat, s: nat, t: nat): (e: seq<real>)
    requires |a| == |b| && Cols(a, p) && Cols(b, c) && s < p && t < c
    ensures |e| == |a|
  {
    seq(|a|, r requires 0 <= r < |a| => a[r][s] * b[r][t])
  }

  lemma CrossProductEntry(a: Matrix, b: Matrix, p: nat, c: nat, s: nat, t: nat)
    requires |a| == |b| && Cols(a, p) && Cols(b, c) && s < p && t < c
    ensures CrossProduct(a, b, p, c)[s][t] == Sum(RowProducts(a, b, p, c, s, t))
  {
    var at := Transpose(a, p);
    var col := Column(b, c, t);
    assert CrossProduct(a, b, p, c)[s][t] == Dot(at[s], col);
    var terms := seq(|at[s]|, k requires 0 <= k < |at[s]| => at[s][k] * col[k]);
    var rows := RowProducts(a, b, p, c, s, t);
    assert |terms| == |rows|;
    forall k | 0 <= k < |a|
      ensures terms[k] == rows[k]
    {
      assert at[s][k] == a[k][s];
    }
    assert terms == rows;
  }

  /** Column t of `a.T @ b` is `a.T` applied to column t of `b`. */
  lemma CrossProductColumn(a: Matrix, b: Matrix, p: nat, c: nat, t: nat)
    requires |a| == |b| && Cols(a, p) && Cols(b, c) && t < c
    ensures Column(CrossProduct(a, b, p, c), c, t) == MatVec(Transpose(a, p), Column(b, c, t))
  {
  }

  /** Rows stacked site after site: the union of all sites' rows. */
  function Stack(ms: seq<Matrix>): (s: Matrix)
    decreases |ms|
  {
    if |ms| == 0 then [] else Stack(ms[..|ms| - 1]) + ms[|ms| - 1]
  }

  lemma {:induction false} StackShape(ms: seq<Matrix>, cols: nat)
    requires forall k :: 0 <= k < |ms| ==> Cols(ms[k], cols)
    ensures Cols(Stack(ms), cols)
  {
    if |ms| > 0 {
      StackShape(ms[..|ms| - 1], cols);
    }
  }

  lemma {:induction false} StackRows(as_: seq<Matrix>, bs: seq<Matrix>)
    requires |as_| == |bs| && forall k :: 0 <= k < |as_| ==> |as_[k]| == |bs[k]|
    ensures |Stack(as_)| == |Stack(bs)|
  {
    if |as_| > 0 {
      StackRows(as_[..|as_| - 1], bs[..|bs| - 1]);
    }
  }

  lemma RowProductsOfStackedRows(a1: Matrix, a2: Matrix, b1: Matrix, b2: Matrix, p: nat, c: nat, s: nat, t: nat)
    requires |a1| == |b1| && |a2| == |b2|
    requires Cols(a1, p) && Cols(a2, p) && Cols(b1, c) && Cols(b2, c) && s < p && t < c
    ensures RowProducts(a1 + a2, b1 + b2, p, c, s, t) == RowProducts(a1, b1, p, c, s, t) + RowProducts(a2, b2, p, c, s, t)
  {
    var all, first, second := RowProducts(a1 + a2, b1 + b2, p, c, s, t),
      RowProducts(a1, b1, p, c, s, t), RowProducts(a2, b2, p, c, s, t);
    forall r | 0 <= r < |all|
      ensures all[r] == (first + second)[r]
    {
      if r < |a1| {
        assert (a1 + a2)[r] == a1[r] && (b1 + b2)[r] == b1[r];
      } else {
        assert (a1 + a2)[r] == a2[r - |a1|] && (b1 + b2)[r] == b2[r - |a1|];
      }
    }
  }

  /** Splitting the rows in two splits `a.T @ b` into the sum of the two parts' products. */
  lemma CrossProductOfStackedRows(a1: Matrix, a2: Matrix, b1: Matrix, b2: Matrix, p: nat, c: nat)
    requires |a1| == |b1| && |a2| == |b2|
    requires Cols(a1, p) && Cols(a2, p) && Cols(b1, c) && Cols(b2, c)
    ensures CrossProduct(a1 + a2, b1 + b2, p, c)
         == Add(CrossProduct(a1, b1, p, c), CrossProduct(a2, b2, p, c), p, c)
  {
    var whole := CrossProduct(a1 + a2, b1 + b2, p, c);
    var parts := Add(CrossProduct(a1, b1, p, c), CrossProduct(a2, b2, p, c), p, c);
    forall s, t | 0 <= s < p && 0 <= t < c
      ensures whole[s][t] == parts[s][t]
    {
      CrossProductEntry(a1 + a2, b1 + b2, p, c, s, t);
      CrossProductEntry(a1, b1, p, c, s, t);
      CrossProductEntry(a2, b2, p, c, s, t);
      RowProductsOfStackedRows(a1, a2, b1, b2, p, c, s, t);
      SumAppend(RowProducts(a1, b1, p, c, s, t), RowProducts(a2, b2, p, c, s, t));
    }
    MatrixExt(whole, parts, p, c);
  }

  /** The per-site products, in site order. */
  function SiteProducts(as_: seq<Matrix>, bs: seq<Matrix>, p: nat, c: nat): (gs: seq<Matrix>)
    requires |as_| == |bs|
    requires forall k :: 0 <= k < |as_| ==> |as_[k]| == |bs[k]| && Cols(as_[k], p) && Cols(bs[k], c)
    ensures |gs| == |as_| && AllMatrices(gs, p, c)
  {
    seq(|as_|, k requires 0 <= k < |as_| => CrossProduct(as_[k], bs[k], p, c))
  }

  /** The pooled `a.T @ b` over the union of all sites' rows is the sum of the
      sites' own products: the sufficient statistics lose nothing. */
  lemma {:induction false} CrossProductOfSites(as_: seq<Matrix>, bs: seq<Matrix>, p: nat, c: nat)
    requires |as_| == |bs|
    requires forall k :: 0 <= k < |as_| ==> |as_[k]| == |bs[k]| && Cols(as_[k], p) && Cols(bs[k], c)
    ensures |Stack(as_)| == |Stack(bs)| && Cols(Stack(as_), p) && Cols(Stack(bs), c)
    ensures CrossProduct(Stack(as_), Stack(bs), p, c) == SumMatrices(SiteProducts(as_, bs, p, c), p, c)
  {
    StackRows(as_, bs);
    StackShape(as_, p);
    StackShape(bs, c);
    var n := |as_|;
    if n == 0 {
      forall s, t | 0 <= s < p && 0 <= t < c
        ensures CrossProduct([], [], p, c)[s][t] == Zero(p, c)[s][t]
      {
        CrossProductEntry([], [], p, c, s, t);
      }
      MatrixExt(CrossProduct([], [], p, c), Zero(p, c), p, c);
    } else {
      var as0, bs0 := as_[..n - 1], bs[..n - 1];
      CrossProductOfSites(as0, bs0, p, c);
      assert SiteProducts(as_, bs, p, c)[..n - 1] == SiteProducts(as0, bs0, p, c);
      CrossProductOfStackedRows(Stack(as0), as_[n - 1], Stack(bs0), bs[n - 1], p, c);
    }
  }
}
