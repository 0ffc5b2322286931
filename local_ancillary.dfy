/** The site-side helpers: per-column mean and count of the responses, the
    augmented design matrix with one indicator column per site, and the
    voxel-by-voxel least-squares fit whose coefficients a site reports. */
module LocalAncillary {
  import opened Wrappers
  import opened LinAlg
  import opened Numerics

  // ---------------------------------------------------------------------------
  // Mean and count of each response column (pandas `mean` and `count`, which
  // skip missing values).

  /** A response table: one row per subject, one column per response variable;
      `None` is a missing value. */
  type Table = seq<seq<Option<real>>>

  predicate TableCols(y: Table, cols: nat) {
    forall i :: 0 <= i < |y| ==> |y[i]| == cols
  }

  /** The non-missing values of column j, in row order. */
  function Present(y: Table, cols: nat, j: nat): (vals: seq<real>)
    requires TableCols(y, cols) && j < cols
    ensures |vals| <= |y|
    decreases |y|
  {
    if |y| == 0 then []
    else
      var rest := Present(y[..|y| - 1], cols, j);
      match y[|y| - 1][j]
      case Some(value) => rest + [value]
      case None => rest
  }

  /** The mean of a list of numbers; NaN (`None`) for an empty list. */
  function Mean(vals: seq<real>): (m: Option<real>)
    ensures m.Some? <==> |vals| > 0
    ensures m.Some? ==> m.value * (|vals| as real) == Sum(vals)
  {
    if |vals| == 0 then None else Some(Sum(vals) / (|vals| as real))
  }

  /** `mean_and_len_y`: the mean and the number of non-missing values of every column. */
  function MeanAndLenY(y: Table, cols: nat): (r: (seq<Option<real>>, seq<nat>))
    requires TableCols(y, cols)
    ensures |r.0| == cols && |r.1| == cols
    ensures forall j :: 0 <= j < cols ==> r.1[j] <= |y|
    ensures forall j :: 0 <= j < cols ==> (r.0[j].Some? <==> r.1[j] > 0)
    ensures forall j :: 0 <= j < cols && r.0[j].Some? ==>
              r.0[j].value * (r.1[j] as real) == Sum(Present(y, cols, j))
  {
    var means := seq(cols, j requires 0 <= j < cols => Mean(Present(y, cols, j)));
    var counts := seq(cols, j requires 0 <= j < cols => |Present(y, cols, j)|);
    MeansWeighCounts(y, cols, means, counts);
    (means, counts)
  }

  /** Column by column, each mean times its count is the sum of the column's present values. */
  lemma MeansWeighCounts(y: Table, cols: nat, means: seq<Option<real>>, counts: seq<nat>)
    requires TableCols(y, cols)
    requires means == seq(cols, j requires 0 <= j < cols => Mean(Present(y, cols, j)))
    requires counts == seq(cols, j requires 0 <= j < cols => |Present(y, cols, j)|)
    ensures forall j :: 0 <= j < cols && means[j].Some? ==>
              means[j].value * (counts[j] as real) == Sum(Present(y, cols, j))
  {
    forall j | 0 <= j < cols && means[j].Some?
      ensures means[j].value * (counts[j] as real) == Sum(Present(y, cols, j))
    {
      var vals := Present(y, cols, j);
      var m, c := Mean(vals), |vals| as real;
      assert means[j] == m && counts[j] as real == c;
      assert m.value * c == Sum(vals);
    }
  }

  /** The rows whose entry in column j is present. */
  function PresentRows(y: Table, cols: nat, j: nat): set<int>
    requires TableCols(y, cols) && j < cols
  {
    set i | 0 <= i < |y| && y[i][j].Some?
  }

  /** The count of a column is the number of rows where it is not missing. */
  lemma {:induction false} CountIsPresentRows(y: Table, cols: nat, j: nat)
    requires TableCols(y, cols) && j < cols
    ensures MeanAndLenY(y, cols).1[j] == |PresentRows(y, cols, j)|
  {
    PresentCount(y, cols, j);
  }

  lemma {:induction false} PresentCount(y: Table, cols: nat, j: nat)
    requires TableCols(y, cols) && j < cols
    ensures |Present(y, cols, j)| == |PresentRows(y, cols, j)|
    decreases |y|
  {
    if |y| > 0 {
      var n := |y|;
      var prefix := y[..n - 1];
      PresentCount(prefix, cols, j);
      var before := PresentRows(prefix, cols, j);
      if y[n - 1][j].Some? {
        assert PresentRows(y, cols, j) == before + {n - 1};
        assert n - 1 !in before;
      } else {
        assert PresentRows(y, cols, j) == before;
      }
    }
  }

  /** A column's count falls short of the row count exactly when it has a missing entry. */
  lemma {:induction false} CountBelowRowsIffMissing(y: Table, cols: nat, j: nat)
    requires TableCols(y, cols) && j < cols
    ensures MeanAndLenY(y, cols).1[j] < |y| <==> exists i :: 0 <= i < |y| && y[i][j].None?
  {
    MissingShortensPresent(y, cols, j);
  }

  lemma {:induction false} MissingShortensPresent(y: Table, cols: nat, j: nat)
    requires TableCols(y, cols) && j < cols
    ensures |Present(y, cols, j)| < |y| <==> exists i :: 0 <= i < |y| && y[i][j].None?
    decreases |y|
  {
    if |y| > 0 {
      var n := |y|;
      MissingShortensPresent(y[..n - 1], cols, j);
      var prefix := y[..n - 1];
      assert forall i :: 0 <= i < n - 1 ==> prefix[i] == y[i];
    }
  }

  /** A column without missing entries has every row counted, and its mean is
      the plain mean of the column. */
  lemma {:induction false} CompleteColumn(y: Table, cols: nat, j: nat)
    requires TableCols(y, cols) && j < cols
    requires forall i :: 0 <= i < |y| ==> y[i][j].Some?
    ensures Present(y, cols, j) == seq(|y|, i requires 0 <= i < |y| => y[i][j].value)
    decreases |y|
  {
    if |y| > 0 {
      var n := |y|;
      CompleteColumn(y[..n - 1], cols, j);
      var whole := seq(|y|, i requires 0 <= i < |y| => y[i][j].value);
      assert whole[..n - 1] == seq(n - 1, i requires 0 <= i < n - 1 => y[..n - 1][i][j].value);
      assert whole == whole[..n - 1] + [y[n - 1][j].value];
    }
  }

  // ---------------------------------------------------------------------------
  // Substring test (Python's `client_id in col`).

  /** `needle` occurs in `hay` starting at position i. */
  ghost predicate OccursAt(needle: string, hay: string, i: nat) {
    i + |needle| <= |hay| && hay[i..i + |needle|] == needle
  }

  ghost predicate IsSubstring(needle: string, hay: string) {
    exists i: nat :: OccursAt(needle, hay, i)
  }

  /** Past position 0, the occurrences of `needle` in `hay` are those in `hay[1..]`, shifted by one. */
  lemma SubstringOfTail(needle: string, hay: string)
    requires |hay| >= 1 && !OccursAt(needle, hay, 0)
    ensures IsSubstring(needle, hay) <==> IsSubstring(needle, hay[1..])
  {
    if IsSubstring(needle, hay) {
      var i: nat :| OccursAt(needle, hay, i);
      assert i > 0;
      assert hay[1..][i - 1..i - 1 + |needle|] == hay[i..i + |needle|];
      assert OccursAt(needle, hay[1..], i - 1);
    }
    if IsSubstring(needle, hay[1..]) {
      var i: nat :| OccursAt(needle, hay[1..], i);
      assert hay[1..][i..i + |needle|] == hay[i + 1..i + 1 + |needle|];
      assert OccursAt(needle, hay, i + 1);
    }
  }

  /** Python's `needle in hay` on two strings: true exactly when `needle` is a
      substring of `hay` (the empty string is a substring of every string). */
  function Contains(hay: string, needle: string): (b: bool)
    ensures b <==> IsSubstring(needle, hay)
    decreases |hay|
  {
    if |needle| > |hay| then
      false
    else if hay[..|needle|] == needle then
      assert hay[0..|needle|] == hay[..|needle|];
      assert OccursAt(needle, hay, 0);
      true
    else
      assert hay[0..|needle|] == hay[..|needle|];
      assert |hay| >= 1;
      SubstringOfTail(needle, hay);
      Contains(hay[1..], needle)
  }

  // ---------------------------------------------------------------------------
  // The augmented design matrix.

  /** Column c of x holds one and the same nonzero value in every row. */
  predicate NonzeroConstantColumn(x: Matrix, cols: nat, c: nat)
    requires Cols(x, cols) && c < cols
  {
    |x| > 0 && x[0][c] != 0.0 && forall i :: 0 <= i < |x| ==> x[i][c] == x[0][c]
  }

  predicate HasConstant(x: Matrix, cols: nat)
    requires Cols(x, cols)
    ensures HasConstant(x, cols) ==> |x| > 0 && cols > 0
  {
    exists c :: 0 <= c < cols && NonzeroConstantColumn(x, cols, c)
  }

  /** `sm.add_constant(X)` with statsmodels' default `has_constant='skip'`: a
      column `const` of ones is put in front, unless X already has a nonzero
      constant column, in which case X is returned unchanged. */
  function AddConstant(x: Matrix, labels: seq<string>): (r: (Matrix, seq<string>))
    requires Cols(x, |labels|)
    ensures IsMatrix(r.0, |x|, |r.1|)
  {
    if HasConstant(x, |labels|) then (x, labels)
    else (seq(|x|, i requires 0 <= i < |x| => [1.0] + x[i]), ["const"] + labels)
  }

  /** The value of a site column for this client: 1 if its name contains the client id. */
  function SiteValue(name: string, clientId: string): (v: real)
    ensures v == 1.0 <==> IsSubstring(clientId, name)
    ensures v == 0.0 <==> !IsSubstring(clientId, name)
  {
    if Contains(name, clientId) then 1.0 else 0.0
  }

  /** The augmented design of `add_site_covariates`: the constant-prefixed
      covariates, then one column per name of the global site list. */
  function AugmentedDesign(x: Matrix, xLabels: seq<string>, siteCovarList: seq<string>, clientId: string)
    : (r: (Matrix, seq<string>))
    requires Cols(x, |xLabels|)
    ensures IsMatrix(r.0, |x|, |r.1|)
  {
    var biased := AddConstant(x, xLabels);
    var s := |siteCovarList|;
    (seq(|x|, i requires 0 <= i < |x| =>
       biased.0[i] + seq(s, j requires 0 <= j < s => SiteValue(siteCovarList[j], clientId))),
     biased.1 + siteCovarList)
  }

  /** `[col for col in site_covar_list if client_id in col]` */
  function SelectCols(names: seq<string>, clientId: string): (sel: seq<string>)
    ensures forall n :: n in sel <==> n in names && Contains(n, clientId)
    decreases |names|
  {
    if |names| == 0 then []
    else
      var last := names[|names| - 1];
      assert names == names[..|names| - 1] + [last];
      var rest := SelectCols(names[..|names| - 1], clientId);
      if Contains(last, clientId) then rest + [last] else rest
  }

  /** `add_site_covariates`: allocates a zero block with one column per global
      site name, sets the selected columns to 1, and appends the block to the
      constant-prefixed covariates. */
  method AddSiteCovariates(x: Matrix, xLabels: seq<string>, siteCovarList: seq<string>, clientId: string)
    returns (augmented: Matrix, labels: seq<string>)
    requires Cols(x, |xLabels|)
    ensures (augmented, labels) == AugmentedDesign(x, xLabels, siteCovarList, clientId)
  {
    var biased := AddConstant(x, xLabels);
    var rows, s := |x|, |siteCovarList|;
    var site := new real[rows, s]((i, j) => 0.0);
    var selected := SelectCols(siteCovarList, clientId);
    var j := 0;
    while j < s
      invariant 0 <= j <= s
      invariant forall i, c :: 0 <= i < rows && 0 <= c < s ==>
                  site[i, c] == if c < j then SiteValue(siteCovarList[c], clientId) else 0.0
    {
      if siteCovarList[j] in selected {
        var i := 0;
        while i < rows
          invariant 0 <= i <= rows
          invariant forall r, c :: 0 <= r < rows && 0 <= c < s ==>
                      site[r, c] == if c < j || (c == j && r < i) then SiteValue(siteCovarList[c], clientId) else 0.0
        {
          site[i, j] := 1.0;
          i := i + 1;
        }
      }
      j := j + 1;
    }
    augmented := seq(rows, i requires 0 <= i < rows reads site =>
                   biased.0[i] + seq(s, c requires 0 <= c < s reads site => site[i, c]));
    labels := biased.1 + siteCovarList;
    ghost var spec := AugmentedDesign(x, xLabels, siteCovarList, clientId);
    forall i | 0 <= i < rows
      ensures augmented[i] == spec.0[i]
    {
      assert seq(s, c requires 0 <= c < s reads site => site[i, c])
          == seq(s, c requires 0 <= c < s => SiteValue(siteCovarList[c], clientId));
    }
    assert augmented == spec.0;
  }

  /** Site column j of the augmented design holds 1 in row i exactly when the
      column's name contains the client id as a substring, and 0 otherwise. */
  lemma SiteColumnIsIndicator(x: Matrix, xLabels: seq<string>, siteCovarList: seq<string>, clientId: string,
                              i: nat, j: nat)
    requires Cols(x, |xLabels|) && i < |x| && j < |siteCovarList|
    ensures var b := |AddConstant(x, xLabels).1|;
            var r := AugmentedDesign(x, xLabels, siteCovarList, clientId);
            r.1[b + j] == siteCovarList[j]
            && r.0[i][b + j] == if IsSubstring(clientId, siteCovarList[j]) then 1.0 else 0.0
  {
    var biased := AddConstant(x, xLabels);
    var b, s := |biased.1|, |siteCovarList|;
    var block := seq(s, c requires 0 <= c < s => SiteValue(siteCovarList[c], clientId));
    var r := AugmentedDesign(x, xLabels, siteCovarList, clientId);
    assert |biased.0[i]| == b;
    assert r.0[i] == biased.0[i] + block;
    assert r.0[i][b + j] == block[j] == SiteValue(siteCovarList[j], clientId);
    assert r.1 == biased.1 + siteCovarList;
  }

  /** All rows of the site block are the same row. */
  lemma SiteBlockRowsAgree(x: Matrix, xLabels: seq<string>, siteCovarList: seq<string>, clientId: string,
                           i1: nat, i2: nat)
    requires Cols(x, |xLabels|) && i1 < |x| && i2 < |x|
    ensures var b := |AddConstant(x, xLabels).1|;
            var r := AugmentedDesign(x, xLabels, siteCovarList, clientId);
            r.0[i1][b..] == r.0[i2][b..]
  {
    var biased := AddConstant(x, xLabels);
    assert |biased.0[i1]| == |biased.0[i2]| == |biased.1|;
    var r := AugmentedDesign(x, xLabels, siteCovarList, clientId);
    assert r.0[i1][|biased.1|..] == seq(|siteCovarList|, j requires 0 <= j < |siteCovarList| => SiteValue(siteCovarList[j], clientId));
    assert r.0[i2][|biased.1|..] == seq(|siteCovarList|, j requires 0 <= j < |siteCovarList| => SiteValue(siteCovarList[j], clientId));
  }

  /** When the client id occurs in no site name (the reference site, dropped
      from the list), the whole site block is 0. (When it occurs in several
      names, `SiteColumnIsIndicator` shows each of those columns is 1.) */
  lemma SiteBlockOfUnlistedClient(x: Matrix, xLabels: seq<string>, siteCovarList: seq<string>, clientId: string)
    requires Cols(x, |xLabels|)
    requires forall j :: 0 <= j < |siteCovarList| ==> !IsSubstring(clientId, siteCovarList[j])
    ensures var b := |AddConstant(x, xLabels).1|;
            var r := AugmentedDesign(x, xLabels, siteCovarList, clientId);
            forall i :: 0 <= i < |x| ==> r.0[i][b..] == seq(|siteCovarList|, j => 0.0)
  {
    var b := |AddConstant(x, xLabels).1|;
    var r := AugmentedDesign(x, xLabels, siteCovarList, clientId);
    forall i | 0 <= i < |x|
      ensures r.0[i][b..] == seq(|siteCovarList|, j => 0.0)
    {
      forall j | 0 <= j < |siteCovarList|
        ensures r.0[i][b..][j] == 0.0
      {
        SiteColumnIsIndicator(x, xLabels, siteCovarList, clientId, i, j);
      }
    }
  }

  /** Column order of the augmented design when X has no constant column of its
      own: `const` (all ones), then X's columns unchanged, then the site list. */
  lemma DesignColumnOrder(x: Matrix, xLabels: seq<string>, siteCovarList: seq<string>, clientId: string)
    requires Cols(x, |xLabels|) && !HasConstant(x, |xLabels|)
    ensures var r := AugmentedDesign(x, xLabels, siteCovarList, clientId);
            && r.1 == ["const"] + xLabels + siteCovarList
            && forall i :: 0 <= i < |x| ==> r.0[i][0] == 1.0 && r.0[i][1..1 + |xLabels|] == x[i]
  {
    var r := AugmentedDesign(x, xLabels, siteCovarList, clientId);
    forall i | 0 <= i < |x|
      ensures r.0[i][0] == 1.0 && r.0[i][1..1 + |xLabels|] == x[i]
    {
      assert r.0[i][..1 + |xLabels|] == [1.0] + x[i];
    }
  }

  /** The augmented design already has a nonzero constant column, so the second
      `sm.add_constant` in `local_stats_to_dict_numba` leaves it (and its
      labels) unchanged, as long as the site has at least one subject. */
  lemma AddConstantSkipsAugmented(x: Matrix, xLabels: seq<string>, siteCovarList: seq<string>, clientId: string)
    requires Cols(x, |xLabels|) && |x| > 0
    ensures var r := AugmentedDesign(x, xLabels, siteCovarList, clientId);
            AddConstant(r.0, r.1) == r
  {
    var r := AugmentedDesign(x, xLabels, siteCovarList, clientId);
    var biased := AddConstant(x, xLabels);
    if HasConstant(x, |xLabels|) {
      var c :| 0 <= c < |xLabels| && NonzeroConstantColumn(x, |xLabels|, c);
      forall i | 0 <= i < |x|
        ensures r.0[i][c] == x[i][c]
      {
        assert r.0[i][..|xLabels|] == x[i];
      }
      assert NonzeroConstantColumn(r.0, |r.1|, c);
    } else {
      forall i | 0 <= i < |x|
        ensures r.0[i][0] == 1.0
      {
        assert r.0[i][..1 + |xLabels|] == [1.0] + x[i];
      }
      assert NonzeroConstantColumn(r.0, |r.1|, 0);
    }
  }

  // ---------------------------------------------------------------------------
  // The voxel-by-voxel fit of `gather_local_stats`.

  /** What the fit of one response column yields. */
  datatype VoxelFit = VoxelFit(beta: Vector, sse: real, tvalues: Vector, rsquared: real, dof: int)

  /** The exceptions the jitted voxel loop raises. */
  datatype FitError =
    | Singular      // `np.linalg.inv(X.T @ X)` raises `LinAlgError`
    | ZeroDivision  // a scalar division by zero, which raises under Numba's default error model

  function SumSquares(v: Vector): (s: real)
    ensures s >= 0.0
    decreases |v|
  {
    if |v| == 0 then 0.0 else SumSquares(v[..|v| - 1]) + v[|v| - 1] * v[|v| - 1]
  }

  /** A sum of squares of zeros is zero. */
  lemma {:induction false} SumSquaresOfZeros(d: Vector)
    requires forall i :: 0 <= i < |d| ==> d[i] == 0.0
    ensures SumSquares(d) == 0.0
  {
    if |d| > 0 {
      SumSquaresOfZeros(d[..|d| - 1]);
    }
  }

  /** The sum of n copies of c is n * c. */
  lemma {:induction false} SumConstant(s: seq<real>, c: real)
    requires forall i :: 0 <= i < |s| ==> s[i] == c
    ensures Sum(s) == (|s| as real) * c
  {
    if |s| > 0 {
      SumConstant(s[..|s| - 1], c);
    }
  }

  /** `a - b` entry by entry. */
  function Difference(a: Vector, b: Vector): (d: Vector)
    requires |a| == |b|
    ensures |d| == |a|
  {
    seq(|a|, i requires 0 <= i < |a| => a[i] - b[i])
  }

  /** `np.sum(np.square(y - np.mean(y)))` */
  function TotalSumSquares(ops: Ops, y: Vector): (t: real)
    ensures t >= 0.0
  {
    var mean := ops.div(Sum(y), |y| as real);
    SumSquares(seq(|y|, i requires 0 <= i < |y| => y[i] - mean))
  }

  /** A non-empty response column whose values are all equal has a zero total
      sum of squares, so its fit raises at `SSE / SST`. */
  lemma ConstantColumnRaises(ops: Ops, x: Matrix, p: nat, inverse: Matrix, y: Vector)
    requires ExactDivision(ops) && |y| > 0
    requires IsMatrix(x, |y|, p) && IsMatrix(inverse, p, p)
    requires forall i :: 0 <= i < |y| ==> y[i] == y[0]
    ensures TotalSumSquares(ops, y) == 0.0
    ensures FitVoxel(ops, x, p, inverse, y) == Failure(ZeroDivision)
  {
    var n, c := |y| as real, y[0];
    var total := Sum(y);
    SumConstant(y, c);
    assert total == n * c && n != 0.0;
    var mean := ops.div(total, n);
    assert mean == total / n;
    CancelFactor(n, c);
    assert mean == c;
    var d := seq(|y|, i requires 0 <= i < |y| => y[i] - mean);
    assert forall i :: 0 <= i < |d| ==> d[i] == 0.0;
    SumSquaresOfZeros(d);
  }

  lemma CancelFactor(n: real, c: real)
    requires n != 0.0
    ensures (n * c) / n == c
  {
  }

  /** `np.linalg.inv(X.T @ X) @ (X.T @ y)`: the coefficients of one response column. */
  function Coefficients(x: Matrix, p: nat, inverse: Matrix, y: Vector): (beta: Vector)
    requires IsMatrix(x, |y|, p) && IsMatrix(inverse, p, p)
    ensures |beta| == p
  {
    MatVec(inverse, MatVec(Transpose(x, p), y))
  }

  /** The loop body of `gather_local_stats` for one response column y, with
      `inverse` the inverse of `XᵗX`. `SSE / SST` raises on a column with no
      variation and `SSE / dof` raises when there are as many rows as covariates. */
  function FitVoxel(ops: Ops, x: Matrix, p: nat, inverse: Matrix, y: Vector): (r: Result<VoxelFit, FitError>)
    requires IsMatrix(x, |y|, p) && IsMatrix(inverse, p, p)
    ensures r.Success? <==> TotalSumSquares(ops, y) != 0.0 && |y| != p
    ensures r.Failure? ==> r.error == ZeroDivision
    ensures r.Success? ==>
              && r.value.beta == Coefficients(x, p, inverse, y)
              && |r.value.tvalues| == p && r.value.dof == |y| - p && r.value.sse >= 0.0
  {
    var beta := Coefficients(x, p, inverse, y);
    var estimate := MatVec(x, beta);
    var sse := SumSquares(Difference(y, estimate));
    var sst := TotalSumSquares(ops, y);
    if sst == 0.0 then Failure(ZeroDivision)
    else
      var dof := |y| - p;
      if dof == 0 then Failure(ZeroDivision)
      else
        var mse := ops.div(sse, dof as real);
        Success(VoxelFit(beta, sse, TRow(ops, beta, mse, inverse), 1.0 - ops.div(sse, sst), dof))
  }

  /** R² = 1 - SSE/SST never exceeds 1. */
  lemma RSquaredAtMostOne(ops: Ops, x: Matrix, p: nat, inverse: Matrix, y: Vector)
    requires ExactDivision(ops)
    requires IsMatrix(x, |y|, p) && IsMatrix(inverse, p, p)
    ensures FitVoxel(ops, x, p, inverse, y).Success? ==> FitVoxel(ops, x, p, inverse, y).value.rsquared <= 1.0
  {
    var r := FitVoxel(ops, x, p, inverse, y);
    if r.Success? {
      var sst := TotalSumSquares(ops, y);
      QuotientNonnegative(r.value.sse, sst);
    }
  }

  lemma QuotientNonnegative(a: real, b: real)
    requires a >= 0.0 && b > 0.0
    ensures a / b >= 0.0
  {
  }

  /** No division of the first `count` voxels' fits is by zero: every one of
      those response columns varies, and there are more rows than covariates. */
  predicate VoxelsDivide(ops: Ops, x: Matrix, p: nat, y: Matrix, v: nat, count: nat)
    requires IsMatrix(y, |x|, v) && count <= v
  {
    forall j :: 0 <= j < count ==> TotalSumSquares(ops, Column(y, v, j)) != 0.0 && |x| != p
  }

  /** The fits of the first `count` response columns of y (which has v columns) against one inverse. */
  function VoxelFits(ops: Ops, x: Matrix, p: nat, inverse: Matrix, y: Matrix, v: nat, count: nat): (fits: seq<VoxelFit>)
    requires Cols(x, p) && IsMatrix(inverse, p, p) && IsMatrix(y, |x|, v) && count <= v
    requires VoxelsDivide(ops, x, p, y, v, count)
    ensures |fits| == count
  {
    if count == 0 then []
    else VoxelFits(ops, x, p, inverse, y, v, count - 1) + [FitVoxel(ops, x, p, inverse, Column(y, v, count - 1)).value]
  }

  /** Voxel j's fit depends only on column j of y. */
  lemma {:induction false} VoxelFitsAt(ops: Ops, x: Matrix, p: nat, inverse: Matrix, y: Matrix, v: nat, count: nat, j: nat)
    requires Cols(x, p) && IsMatrix(inverse, p, p) && IsMatrix(y, |x|, v) && j < count <= v
    requires VoxelsDivide(ops, x, p, y, v, count)
    ensures FitVoxel(ops, x, p, inverse, Column(y, v, j)).Success?
    ensures VoxelFits(ops, x, p, inverse, y, v, count)[j] == FitVoxel(ops, x, p, inverse, Column(y, v, j)).value
  {
    if j < count - 1 {
      VoxelFitsAt(ops, x, p, inverse, y, v, count - 1, j);
    }
  }

  /** Every fit has p coefficients and p t-values. */
  ghost predicate FitsHaveWidth(fits: seq<VoxelFit>, p: nat) {
    forall j :: 0 <= j < |fits| ==> |fits[j].beta| == p && |fits[j].tvalues| == p
  }

  /** The first |fits| voxels of the output arrays hold those fits. */
  ghost predicate Filled(params: array2<real>, sse: array<real>, tvalues: array2<real>, rsquared: array<real>,
                         fits: seq<VoxelFit>, p: nat)
    reads params, sse, tvalues, rsquared
    requires FitsHaveWidth(fits, p)
    requires params.Length0 == tvalues.Length0 == p
    requires |fits| <= params.Length1 == tvalues.Length1 == sse.Length == rsquared.Length
  {
    && (forall k, j :: 0 <= k < p && 0 <= j < |fits| ==>
          params[k, j] == fits[j].beta[k] && tvalues[k, j] == fits[j].tvalues[k])
    && (forall j :: 0 <= j < |fits| ==> sse[j] == fits[j].sse && rsquared[j] == fits[j].rsquared)
  }

  /** `params[:, voxel] = beta_vector`, `tvalues[:, voxel] = ts_global`,
      `sse[voxel] = ...`, `rsquared[voxel] = ...` for the next voxel. */
  method StoreFit(params: array2<real>, sse: array<real>, tvalues: array2<real>, rsquared: array<real>,
                  ghost fits: seq<VoxelFit>, fit: VoxelFit, p: nat, voxel: nat)
    requires voxel == |fits|
    requires FitsHaveWidth(fits, p) && |fit.beta| == p && |fit.tvalues| == p
    requires params != tvalues && sse != rsquared
    requires params.Length0 == tvalues.Length0 == p
    requires |fits| < params.Length1 == tvalues.Length1 == sse.Length == rsquared.Length
    requires Filled(params, sse, tvalues, rsquared, fits, p)
    modifies params, sse, tvalues, rsquared
    ensures FitsHaveWidth(fits + [fit], p) && Filled(params, sse, tvalues, rsquared, fits + [fit], p)
    ensures forall k, j :: 0 <= k < p && voxel < j < params.Length1 ==>
              params[k, j] == old(params[k, j]) && tvalues[k, j] == old(tvalues[k, j])
    ensures forall j :: voxel < j < sse.Length ==> sse[j] == old(sse[j]) && rsquared[j] == old(rsquared[j])
  {
    var k := 0;
    while k < p
      invariant 0 <= k <= p
      invariant Filled(params, sse, tvalues, rsquared, fits, p)
      invariant forall k' :: 0 <= k' < k ==> params[k', voxel] == fit.beta[k'] && tvalues[k', voxel] == fit.tvalues[k']
      invariant forall k', j :: 0 <= k' < p && voxel < j < params.Length1 ==>
                  params[k', j] == old(params[k', j]) && tvalues[k', j] == old(tvalues[k', j])
      invariant forall j :: 0 <= j < sse.Length ==> sse[j] == old(sse[j]) && rsquared[j] == old(rsquared[j])
    {
      params[k, voxel] := fit.beta[k];
      tvalues[k, voxel] := fit.tvalues[k];
      k := k + 1;
    }
    sse[voxel] := fit.sse;
    rsquared[voxel] := fit.rsquared;
  }

  lemma NextVoxelFits(ops: Ops, x: Matrix, p: nat, inverse: Matrix, y: Matrix, v: nat, voxel: nat,
                      done: seq<VoxelFit>, fit: VoxelFit)
    requires Cols(x, p) && IsMatrix(inverse, p, p) && IsMatrix(y, |x|, v) && voxel < v
    requires VoxelsDivide(ops, x, p, y, v, voxel + 1)
    requires done == VoxelFits(ops, x, p, inverse, y, v, voxel)
    requires FitVoxel(ops, x, p, inverse, Column(y, v, voxel)) == Success(fit)
    ensures done + [fit] == VoxelFits(ops, x, p, inverse, y, v, voxel + 1)
  {
  }

  /** The voxel loop of `gather_local_stats`: fits every response column of y
      against the design x, writing each voxel's coefficients and t-values
      into column `voxel` of the (p × v) arrays and its SSE and R² into entry
      `voxel` of the length-v arrays. It stops at the first voxel that raises. */
  method FitAllVoxels(ops: Ops, x: Matrix, y: Matrix, p: nat, v: nat,
                      params: array2<real>, sse: array<real>, tvalues: array2<real>, rsquared: array<real>)
    returns (err: Option<FitError>, dof: int)
    requires InverseKeepsShape(ops)
    requires Cols(x, p) && IsMatrix(y, |x|, v) && v >= 1
    requires params != tvalues && sse != rsquared
    requires params.Length0 == tvalues.Length0 == p && params.Length1 == tvalues.Length1 == v
    requires sse.Length == rsquared.Length == v
    modifies params, sse, tvalues, rsquared
    ensures err == Some(Singular) <==> ops.inv(Gram(x, p)).None?
    ensures err == Some(ZeroDivision) <==> ops.inv(Gram(x, p)).Some? && !VoxelsDivide(ops, x, p, y, v, v)
    ensures err.None? <==> ops.inv(Gram(x, p)).Some? && VoxelsDivide(ops, x, p, y, v, v)
    ensures err.None? ==> dof == |x| - p
    ensures err.None? ==> var fits := VoxelFits(ops, x, p, ops.inv(Gram(x, p)).value, y, v, v);
                          FitsHaveWidth(fits, p) && Filled(params, sse, tvalues, rsquared, fits, p)
  {
    dof := 0;
    ghost var done: seq<VoxelFit> := [];
    ghost var gram := ops.inv(Gram(x, p));
    var voxel := 0;
    while voxel < v
      invariant 0 <= voxel <= v && |done| == voxel
      invariant FitsHaveWidth(done, p) && Filled(params, sse, tvalues, rsquared, done, p)
      invariant voxel > 0 ==> gram.Some? && dof == |x| - p && VoxelsDivide(ops, x, p, y, v, voxel)
      invariant voxel > 0 ==> done == VoxelFits(ops, x, p, gram.value, y, v, voxel)
    {
      var currY := Column(y, v, voxel);
      var inverse := ops.inv(Gram(x, p));
      if inverse.None? {
        err := Some(Singular);
        return;
      }
      var fit := FitVoxel(ops, x, p, inverse.value, currY);
      if fit.Failure? {
        err := Some(ZeroDivision);
        return;
      }
      StoreFit(params, sse, tvalues, rsquared, done, fit.value, p, voxel);
      NextVoxelFits(ops, x, p, inverse.value, y, v, voxel, done, fit.value);
      done := done + [fit.value];
      dof := fit.value.dof;
      voxel := voxel + 1;
    }
    err := None;
  }

  /** `gather_local_stats`: allocates `params` and `tvalues` as (p × v) and
      `sse` and `rsquared` as (v) arrays of zeros, then runs the voxel loop. */
  method GatherLocalStats(ops: Ops, x: Matrix, y: Matrix, p: nat, v: nat)
    returns (err: Option<FitError>, params: array2<real>, sse: array<real>, tvalues: array2<real>,
             rsquared: array<real>, dof: int)
    requires InverseKeepsShape(ops)
    requires Cols(x, p) && IsMatrix(y, |x|, v) && v >= 1
    ensures params.Length0 == p && params.Length1 == v && tvalues.Length0 == p && tvalues.Length1 == v
    ensures sse.Length == v && rsquared.Length == v
    ensures err == Some(Singular) <==> ops.inv(Gram(x, p)).None?
    ensures err == Some(ZeroDivision) <==> ops.inv(Gram(x, p)).Some? && !VoxelsDivide(ops, x, p, y, v, v)
    ensures err.None? <==> ops.inv(Gram(x, p)).Some? && VoxelsDivide(ops, x, p, y, v, v)
    ensures err.None? ==> dof == |x| - p
    ensures err.None? ==> var fits := VoxelFits(ops, x, p, ops.inv(Gram(x, p)).value, y, v, v);
                          FitsHaveWidth(fits, p) && Filled(params, sse, tvalues, rsquared, fits, p)
  {
    params := new real[p, v]((k, j) => 0.0);
    sse := new real[v](j => 0.0);
    tvalues := new real[p, v]((k, j) => 0.0);
    rsquared := new real[v](j => 0.0);
    err, dof := FitAllVoxels(ops, x, y, p, v, params, sse, tvalues, rsquared);
  }

  /** The numerical core of `local_stats_to_dict_numba`: the design's labels
      after `sm.add_constant`, and `beta_vector = params.T`, one row of
      coefficients per response column in label order. The exceptions of
      `gather_local_stats` propagate. */
  method LocalStatsToDictNumba(ops: Ops, x: Matrix, xLabels: seq<string>, y: Matrix, v: nat)
    returns (err: Option<FitError>, betaVector: Matrix, labels: seq<string>)
    requires InverseKeepsShape(ops)
    requires Cols(x, |xLabels|) && IsMatrix(y, |x|, v) && v >= 1
    ensures labels == AddConstant(x, xLabels).1
    ensures var design := AddConstant(x, xLabels).0;
            && (err == Some(Singular) <==> ops.inv(Gram(design, |labels|)).None?)
            && (err.None? <==> ops.inv(Gram(design, |labels|)).Some? && VoxelsDivide(ops, design, |labels|, y, v, v))
    ensures err.None? ==> IsMatrix(betaVector, v, |labels|)
    ensures err.None? ==> var design := AddConstant(x, xLabels).0;
              forall j :: 0 <= j < v ==>
                betaVector[j] == Coefficients(design, |labels|, ops.inv(Gram(design, |labels|)).value, Column(y, v, j))
  {
    var biased := AddConstant(x, xLabels);
    labels := biased.1;
    var p := |labels|;
    var params, sse, tvalues, rsquared, dof;
    err, params, sse, tvalues, rsquared, dof := GatherLocalStats(ops, biased.0, y, p, v);
    betaVector := seq(v, j requires 0 <= j < v reads params =>
                    seq(p, k requires 0 <= k < p reads params => params[k, j]));
    if err.None? {
      TransposedFits(ops, biased.0, p, ops.inv(Gram(biased.0, p)).value, y, v,
                     params, sse, tvalues, rsquared, betaVector);
    }
  }

  /** Row j of `params.T`, once the loop has filled `params`, is voxel j's coefficients. */
  lemma TransposedFits(ops: Ops, x: Matrix, p: nat, inverse: Matrix, y: Matrix, v: nat,
                       params: array2<real>, sse: array<real>, tvalues: array2<real>, rsquared: array<real>,
                       betaVector: Matrix)
    requires Cols(x, p) && IsMatrix(inverse, p, p) && IsMatrix(y, |x|, v) && VoxelsDivide(ops, x, p, y, v, v)
    requires params.Length0 == tvalues.Length0 == p && params.Length1 == tvalues.Length1 == v
    requires sse.Length == rsquared.Length == v
    requires FitsHaveWidth(VoxelFits(ops, x, p, inverse, y, v, v), p)
    requires Filled(params, sse, tvalues, rsquared, VoxelFits(ops, x, p, inverse, y, v, v), p)
    requires IsMatrix(betaVector, v, p)
    requires forall j, k :: 0 <= j < v && 0 <= k < p ==> betaVector[j][k] == params[k, j]
    ensures forall j :: 0 <= j < v ==> betaVector[j] == Coefficients(x, p, inverse, Column(y, v, j))
  {
    var fits := VoxelFits(ops, x, p, inverse, y, v, v);
    forall j | 0 <= j < v
      ensures betaVector[j] == Coefficients(x, p, inverse, Column(y, v, j))
    {
      VoxelFitsAt(ops, x, p, inverse, y, v, v, j);
      assert forall k :: 0 <= k < p ==> betaVector[j][k] == fits[j].beta[k];
    }
  }
}
