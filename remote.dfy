/** The coordinator of the decentralised regression: it pools the sites'
    sufficient statistics in round 1 (`remote_1`), turns the pooled residuals
    into t- and p-values in round 2 (`remote_2`), and picks the round to run
    from the phase tags the sites report. */
module Remote {
  import opened Wrappers
  import opened LinAlg
  import opened Numerics
  import opened LocalAncillary

  type SiteId = string

  /** A site's `local_stats_list`: PNG file names mapped to their base64 text. */
  type LocalStats = map<string, string>

  /** One entry of the coordinator's `input_list`, in the order of `args["input"]`. */
  datatype Site<T> = Site(id: SiteId, input: T)

  /** The exceptions the coordinator raises. */
  datatype Error =
    | NoSites         // `list(site_list)[0]` on an empty input
    | ShapeMismatch   // arrays from different sites that cannot be added or multiplied together
    | UnequalLambdas  // "Unequal lambdas at local sites"
    | LinAlgError     // `np.linalg.inv` of a singular (or zero-dimensional) array
    | UnknownPhase    // "Error occurred at Remote"

  predicate Distinct<T(==)>(s: seq<T>) {
    forall a, b :: 0 <= a < b < |s| ==> s[a] != s[b]
  }

  /** The loop that fills `input_list` with each site's `local_output`, one
      site after the other; `read` stands for reading that file. */
  method ReadLocalOutputs<T>(siteIds: seq<SiteId>, read: SiteId -> T) returns (inputList: seq<Site<T>>)
    ensures |inputList| == |siteIds|
    ensures forall k :: 0 <= k < |siteIds| ==> inputList[k].id == siteIds[k] && inputList[k].input == read(siteIds[k])
  {
    inputList := [];
    var k := 0;
    while k < |siteIds|
      invariant 0 <= k <= |siteIds| && |inputList| == k
      invariant forall k' :: 0 <= k' < k ==> inputList[k'] == Site(siteIds[k'], read(siteIds[k']))
    {
      inputList := inputList + [Site(siteIds[k], read(siteIds[k]))];
      k := k + 1;
    }
  }

  // ---------------------------------------------------------------------------
  // Round 0.

  /** The round-0 output record; the covariate keys and their counts come from
      a helper that is not part of this model. */
  datatype Output0<K, U> = Output0(covarKeys: K, globalUniqueCount: U, mask: string, computationPhase: string)
  datatype Round0Result<K, U> = Round0Result(output: Output0<K, U>, cache: map<string, string>)

  /** `remote_0`: collects every site's `categorical_dict` by site and hands it to
      `return_uniques_and_counts` (the parameter `uniquesAndCounts`). */
  function Remote0<C, K, U>(siteIds: seq<SiteId>, categorical: SiteId -> C,
                            uniquesAndCounts: map<SiteId, C> -> (K, U)): (r: Round0Result<K, U>)
    ensures r.output.mask == "mask.nii" && r.output.computationPhase == "remote_0" && r.cache == map[]
    ensures var siteInfo := map s | s in siteIds :: categorical(s);
            siteInfo.Keys == set s | s in siteIds
            && (r.output.covarKeys, r.output.globalUniqueCount) == uniquesAndCounts(siteInfo)
  {
    var siteInfo := map s | s in siteIds :: categorical(s);
    var counted := uniquesAndCounts(siteInfo);
    Round0Result(Output0(counted.0, counted.1, "mask.nii", "remote_0"), map[])
  }

  // ---------------------------------------------------------------------------
  // Round 1.

  /** What one site writes to `local_output` for round 1. */
  datatype Round1Input = Round1Input(
    xLabels: seq<string>,
    localStats: LocalStats,
    xtx: Matrix,                 // `XtransposeX_local`, p × p
    xty: Matrix,                 // `Xtransposey_local`, p × v
    meanY: seq<Option<real>>,    // `mean_y_local`, one per response column
    countY: seq<nat>,            // `count_local`, one per response column
    lambda: real)

  datatype Output1 = Output1(avgBetaVector: Matrix, meanYGlobal: seq<Option<real>>, computationPhase: string)

  datatype Cache1 = Cache1(avgBetaVector: Matrix, meanYGlobal: seq<Option<real>>, dofGlobal: seq<int>,
                           xLabels: seq<string>, localStatsDict: seq<LocalStats>)

  datatype Round1Result = Round1Result(output: Output1, cache: Cache1)

  /** The number of covariates p, read off the first site's `XᵗX`. */
  function Covariates(inputs: seq<Round1Input>): nat
    requires |inputs| > 0
  {
    |inputs[0].xtx|
  }

  /** The number of response columns v, read off the first site's counts. */
  function Responses(inputs: seq<Round1Input>): nat
    requires |inputs| > 0
  {
    |inputs[0].countY|
  }

  /** Every site's `XᵗX` is p × p and its `Xᵗy` is p × v. */
  predicate ProductShapes(inputs: seq<Round1Input>, p: nat, v: nat) {
    forall k :: 0 <= k < |inputs| ==> IsMatrix(inputs[k].xtx, p, p) && IsMatrix(inputs[k].xty, p, v)
  }

  /** Every site reports one mean and one count per response column. */
  predicate MeanShapes(inputs: seq<Round1Input>, v: nat) {
    forall k :: 0 <= k < |inputs| ==> |inputs[k].meanY| == v && |inputs[k].countY| == v
  }

  /** `np.unique(all_lambdas)` as a set. */
  function Lambdas(inputs: seq<Round1Input>): (ls: set<real>)
    ensures forall k :: 0 <= k < |inputs| ==> inputs[k].lambda in ls
    ensures |inputs| == 0 <==> ls == {}
  {
    var ls := set k | 0 <= k < |inputs| :: inputs[k].lambda;
    assert |inputs| > 0 ==> inputs[0].lambda in ls;
    ls
  }

  function XtxList(inputs: seq<Round1Input>, p: nat, v: nat): (ms: seq<Matrix>)
    requires ProductShapes(inputs, p, v)
    ensures |ms| == |inputs| && AllMatrices(ms, p, p)
  {
    seq(|inputs|, k requires 0 <= k < |inputs| => inputs[k].xtx)
  }

  function XtyList(inputs: seq<Round1Input>, p: nat, v: nat): (ms: seq<Matrix>)
    requires ProductShapes(inputs, p, v)
    ensures |ms| == |inputs| && AllMatrices(ms, p, v)
  {
    seq(|inputs|, k requires 0 <= k < |inputs| => inputs[k].xty)
  }

  /** `beta_vector_0 = sum(...)`: the pooled `XᵗX`. */
  function GlobalXtx(inputs: seq<Round1Input>, p: nat, v: nat): (g: Matrix)
    requires ProductShapes(inputs, p, v)
    ensures IsMatrix(g, p, p)
  {
    SumMatrices(XtxList(inputs, p, v), p, p)
  }

  /** `beta_vector_1 = sum(...)`: the pooled `Xᵗy`. */
  function GlobalXty(inputs: seq<Round1Input>, p: nat, v: nat): (g: Matrix)
    requires ProductShapes(inputs, p, v)
    ensures IsMatrix(g, p, v)
  {
    SumMatrices(XtyList(inputs, p, v), p, v)
  }

  /** `sum(count_y_local)` at response column j. */
  function TotalCount(inputs: seq<Round1Input>, v: nat, j: nat): (t: nat)
    requires MeanShapes(inputs, v) && j < v
    ensures forall k :: 0 <= k < |inputs| ==> inputs[k].countY[j] <= t
    decreases |inputs|
  {
    if |inputs| == 0 then 0
    else
      var front := inputs[..|inputs| - 1];
      assert forall k :: 0 <= k < |front| ==> front[k] == inputs[k];
      TotalCount(front, v, j) + inputs[|inputs| - 1].countY[j]
  }

  /** No site's mean of response column j is NaN. */
  predicate MeansPresent(inputs: seq<Round1Input>, v: nat, j: nat)
    requires MeanShapes(inputs, v) && j < v
  {
    forall k :: 0 <= k < |inputs| ==> inputs[k].meanY[j].Some?
  }

  /** `np.sum(mean * count, axis=0)` at response column j. */
  function WeightedSum(inputs: seq<Round1Input>, v: nat, j: nat): real
    requires MeanShapes(inputs, v) && j < v && MeansPresent(inputs, v, j)
    decreases |inputs|
  {
    if |inputs| == 0 then 0.0
    else
      var last := inputs[|inputs| - 1];
      WeightedSum(inputs[..|inputs| - 1], v, j) + last.meanY[j].value * (last.countY[j] as real)
  }

  /** `mean_y_global` at response column j: the count-weighted mean of the site
      means; NaN (`None`) when a site's mean is NaN or no site has a value. */
  function WeightedMean(inputs: seq<Round1Input>, v: nat, j: nat): (m: Option<real>)
    requires MeanShapes(inputs, v) && j < v
    ensures m.Some? <==> MeansPresent(inputs, v, j) && TotalCount(inputs, v, j) > 0
    ensures m.Some? ==> m.value * (TotalCount(inputs, v, j) as real) == WeightedSum(inputs, v, j)
  {
    if !MeansPresent(inputs, v, j) then None
    else if TotalCount(inputs, v, j) == 0 then None
    else Some(WeightedSum(inputs, v, j) / (TotalCount(inputs, v, j) as real))
  }

  function LocalStatsList(inputs: seq<Round1Input>): (all: seq<LocalStats>)
    ensures |all| == |inputs|
  {
    seq(|inputs|, k requires 0 <= k < |inputs| => inputs[k].localStats)
  }

  /** The inputs on which `remote_1` returns instead of raising. */
  predicate Round1Accepted(ops: Ops, inputs: seq<Round1Input>) {
    && |inputs| > 0
    && ProductShapes(inputs, Covariates(inputs), Responses(inputs))
    && |Lambdas(inputs)| == 1
    && ops.inv(GlobalXtx(inputs, Covariates(inputs), Responses(inputs))).Some?
    && MeanShapes(inputs, Responses(inputs))
  }

  /** `remote_1`, on the sites' round-1 outputs in input order. */
  function Remote1(ops: Ops, inputs: seq<Round1Input>): (r: Result<Round1Result, Error>)
    requires InverseKeepsShape(ops)
    ensures r.Success? <==> Round1Accepted(ops, inputs)
    ensures r == Failure(NoSites) <==> |inputs| == 0
    ensures r == Failure(UnequalLambdas) <==>
              |inputs| > 0 && ProductShapes(inputs, Covariates(inputs), Responses(inputs)) && |Lambdas(inputs)| != 1
    ensures r == Failure(LinAlgError) <==>
              && |inputs| > 0 && ProductShapes(inputs, Covariates(inputs), Responses(inputs)) && |Lambdas(inputs)| == 1
              && ops.inv(GlobalXtx(inputs, Covariates(inputs), Responses(inputs))).None?
    ensures r.Success? ==>
              var p, v := Covariates(inputs), Responses(inputs);
              var out, cache := r.value.output, r.value.cache;
              && out.computationPhase == "remote_1"
              && IsMatrix(out.avgBetaVector, v, p)
              && out.avgBetaVector
                 == Transpose(MatMul(ops.inv(GlobalXtx(inputs, p, v)).value, GlobalXty(inputs, p, v), v), v)
              && |out.meanYGlobal| == v
              && (forall j :: 0 <= j < v ==> out.meanYGlobal[j] == WeightedMean(inputs, v, j))
              && cache.avgBetaVector == out.avgBetaVector
              && cache.meanYGlobal == out.meanYGlobal
              && |cache.dofGlobal| == v
              && (forall j :: 0 <= j < v ==> cache.dofGlobal[j] == TotalCount(inputs, v, j) - p)
              && cache.xLabels == inputs[0].xLabels
              && cache.localStatsDict == LocalStatsList(inputs)
  {
    if |inputs| == 0 then Failure(NoSites)
    else
      var p, v := Covariates(inputs), Responses(inputs);
      if !ProductShapes(inputs, p, v) then Failure(ShapeMismatch)
      else if |Lambdas(inputs)| != 1 then Failure(UnequalLambdas)
      else
        var inverse := ops.inv(GlobalXtx(inputs, p, v));
        if inverse.None? then Failure(LinAlgError)
        else if !MeanShapes(inputs, v) then Failure(ShapeMismatch)
        else
          var avgBeta := Transpose(MatMul(inverse.value, GlobalXty(inputs, p, v), v), v);
          var meanY := seq(v, j requires 0 <= j < v => WeightedMean(inputs, v, j));
          var dof := seq(v, j requires 0 <= j < v => TotalCount(inputs, v, j) - p);
          Success(Round1Result(Output1(avgBeta, meanY, "remote_1"),
                               Cache1(avgBeta, meanY, dof, inputs[0].xLabels, LocalStatsList(inputs))))
  }

  /** The lambda guard lets a round through exactly when there is at least one
      site and every site reports the same lambda; with no sites it fires too. */
  lemma LambdaGuard(inputs: seq<Round1Input>)
    ensures |Lambdas(inputs)| == 1 <==>
              |inputs| > 0 && forall k :: 0 <= k < |inputs| ==> inputs[k].lambda == inputs[0].lambda
  {
    var ls := Lambdas(inputs);
    if |inputs| > 0 && forall k :: 0 <= k < |inputs| ==> inputs[k].lambda == inputs[0].lambda {
      assert ls == {inputs[0].lambda};
    }
    if |ls| == 1 {
      var a :| a in ls;
      assert |ls - {a}| == 0;
      assert ls == {a};
      assert inputs[0].lambda in ls;
      forall k | 0 <= k < |inputs|
        ensures inputs[k].lambda == inputs[0].lambda
      {
        assert inputs[k].lambda in ls;
      }
    }
  }

  /** Entry (i, j) of the pooled `XᵗX` is the sum of the sites' entries (i, j). */
  lemma GlobalXtxEntry(inputs: seq<Round1Input>, p: nat, v: nat, i: nat, j: nat)
    requires ProductShapes(inputs, p, v) && i < p && j < p
    ensures GlobalXtx(inputs, p, v)[i][j] == Sum(seq(|inputs|, k requires 0 <= k < |inputs| => inputs[k].xtx[i][j]))
  {
    var ms := XtxList(inputs, p, v);
    SumMatricesEntry(ms, p, p, i, j);
    assert Entries(ms, p, p, i, j) == seq(|inputs|, k requires 0 <= k < |inputs| => inputs[k].xtx[i][j]);
  }

  /** Entry (i, j) of the pooled `Xᵗy` is the sum of the sites' entries (i, j). */
  lemma GlobalXtyEntry(inputs: seq<Round1Input>, p: nat, v: nat, i: nat, j: nat)
    requires ProductShapes(inputs, p, v) && i < p && j < v
    ensures GlobalXty(inputs, p, v)[i][j] == Sum(seq(|inputs|, k requires 0 <= k < |inputs| => inputs[k].xty[i][j]))
  {
    var ms := XtyList(inputs, p, v);
    SumMatricesEntry(ms, p, v, i, j);
    assert Entries(ms, p, v, i, j) == seq(|inputs|, k requires 0 <= k < |inputs| => inputs[k].xty[i][j]);
  }

  /** Row j of `transpose(inv @ (Xᵗ Y))` is the coefficient vector the local fit
      computes from response column j: `inv @ (Xᵗ y_j)`. */
  lemma BetaColumn(ops: Ops, x: Matrix, y: Matrix, inverse: Matrix, p: nat, v: nat, j: nat)
    requires |x| == |y| && Cols(x, p) && Cols(y, v) && IsMatrix(inverse, p, p) && j < v
    ensures Transpose(MatMul(inverse, CrossProduct(x, y, p, v), v), v)[j]
         == Coefficients(x, p, inverse, Column(y, v, j))
  {
    var g := CrossProduct(x, y, p, v);
    var row := Transpose(MatMul(inverse, g, v), v)[j];
    var beta := Coefficients(x, p, inverse, Column(y, v, j));
    CrossProductColumn(x, y, p, v, j);
    assert Column(g, v, j) == MatVec(Transpose(x, p), Column(y, v, j));
    forall k | 0 <= k < p
      ensures row[k] == beta[k]
    {
      assert row[k] == Dot(inverse[k], Column(g, v, j));
    }
  }

  /** With a single site, the coordinator's coefficients are that site's own
      `transpose(inv(XᵗX) @ Xᵗy)`. */
  lemma OneSiteBeta(ops: Ops, site: Round1Input)
    requires InverseKeepsShape(ops)
    ensures var p, v := |site.xtx|, |site.countY|;
            Remote1(ops, [site]).Success? ==>
              && ops.inv(site.xtx).Some?
              && Remote1(ops, [site]).value.output.avgBetaVector
                 == Transpose(MatMul(ops.inv(site.xtx).value, site.xty, v), v)
  {
    if Remote1(ops, [site]).Success? {
      var p, v := |site.xtx|, |site.countY|;
      assert XtxList([site], p, v) == [site.xtx];
      assert XtyList([site], p, v) == [site.xty];
      SumOfOne(site.xtx, p, p);
      SumOfOne(site.xty, p, v);
    }
  }

  /** The sites' statistics are those of designs `xs` and responses `ys`:
      `XᵗX` and `Xᵗy` of each site's own rows. */
  predicate FromSiteData(inputs: seq<Round1Input>, xs: seq<Matrix>, ys: seq<Matrix>, p: nat, v: nat) {
    && |xs| == |ys| == |inputs|
    && (forall k :: 0 <= k < |inputs| ==> |xs[k]| == |ys[k]| && Cols(xs[k], p) && Cols(ys[k], v))
    && (forall k :: 0 <= k < |inputs| ==>
          inputs[k].xtx == Gram(xs[k], p) && inputs[k].xty == CrossProduct(xs[k], ys[k], p, v))
  }

  /** Pooling loses nothing: when every site reports `XᵗX` and `Xᵗy` of its own
      rows, the coordinator's coefficients for response column j are those of a
      single fit on all sites' rows stacked together. */
  lemma PooledFit(ops: Ops, inputs: seq<Round1Input>, xs: seq<Matrix>, ys: seq<Matrix>, j: nat)
    requires InverseKeepsShape(ops)
    requires |inputs| > 0 && j < Responses(inputs)
    requires FromSiteData(inputs, xs, ys, Covariates(inputs), Responses(inputs))
    ensures var p, v := Covariates(inputs), Responses(inputs);
            && |Stack(xs)| == |Stack(ys)| && Cols(Stack(xs), p) && Cols(Stack(ys), v)
            && (Remote1(ops, inputs).Success? ==>
                  && ops.inv(Gram(Stack(xs), p)).Some?
                  && Remote1(ops, inputs).value.output.avgBetaVector[j]
                     == Coefficients(Stack(xs), p, ops.inv(Gram(Stack(xs), p)).value, Column(Stack(ys), v, j)))
  {
    var p, v := Covariates(inputs), Responses(inputs);
    CrossProductOfSites(xs, ys, p, v);
    if Remote1(ops, inputs).Success? {
      CrossProductOfSites(xs, xs, p, p);
      assert XtxList(inputs, p, v) == SiteProducts(xs, xs, p, p);
      assert XtyList(inputs, p, v) == SiteProducts(xs, ys, p, v);
      var inverse := ops.inv(Gram(Stack(xs), p)).value;
      BetaColumn(ops, Stack(xs), Stack(ys), inverse, p, v, j);
    }
  }

  /** With a single site whose statistics come from its design x and responses
      y, the coordinator's coefficients for column j are the site's own fit of
      that column (the `beta_vector` of `gather_local_stats`). */
  lemma OneSiteMatchesLocalFit(ops: Ops, site: Round1Input, x: Matrix, y: Matrix, j: nat)
    requires InverseKeepsShape(ops)
    requires FromSiteData([site], [x], [y], |site.xtx|, |site.countY|)
    requires j < |site.countY|
    ensures var p, v := |site.xtx|, |site.countY|;
            && IsMatrix(x, |y|, p) && Cols(y, v)
            && (Remote1(ops, [site]).Success? ==>
                  && ops.inv(Gram(x, p)).Some?
                  && Remote1(ops, [site]).value.output.avgBetaVector[j]
                     == Coefficients(x, p, ops.inv(Gram(x, p)).value, Column(y, v, j)))
  {
    PooledFit(ops, [site], [x], [y], j);
    assert Stack([x]) == x by { assert [x][..0] == []; }
    assert Stack([y]) == y by { assert [y][..0] == []; }
  }

  /** The rows of all sites together, when each site counts every one of its rows. */
  lemma {:induction false} CompleteCountsTotal(inputs: seq<Round1Input>, xs: seq<Matrix>, v: nat, j: nat)
    requires MeanShapes(inputs, v) && j < v && |xs| == |inputs|
    requires forall k :: 0 <= k < |inputs| ==> inputs[k].countY[j] == |xs[k]|
    ensures TotalCount(inputs, v, j) == |Stack(xs)|
  {
    if |inputs| > 0 {
      var n := |inputs|;
      CompleteCountsTotal(inputs[..n - 1], xs[..n - 1], v, j);
    }
  }

  /** When no response value is missing, `dof_global` is the degrees of freedom
      of the pooled fit: all rows of all sites minus the covariates. */
  lemma PooledDof(ops: Ops, inputs: seq<Round1Input>, xs: seq<Matrix>, j: nat)
    requires InverseKeepsShape(ops)
    requires |inputs| > 0 && MeanShapes(inputs, Responses(inputs))
    requires |xs| == |inputs| && j < Responses(inputs)
    requires forall k :: 0 <= k < |inputs| ==> inputs[k].countY[j] == |xs[k]|
    ensures Remote1(ops, inputs).Success? ==>
              Remote1(ops, inputs).value.cache.dofGlobal[j] == |Stack(xs)| - Covariates(inputs)
  {
    CompleteCountsTotal(inputs, xs, Responses(inputs), j);
  }

  lemma QuotientBounds(lo: real, hi: real, s: real, t: real)
    requires t > 0.0 && lo * t <= s <= hi * t
    ensures lo <= s / t <= hi
  {
  }

  /** Adding a site whose mean is at least lo keeps the running weighted sum
      at least lo times the running count. */
  lemma LowerStep(lo: real, m: real, c: real, t: real, w: real, total: real, sum: real)
    requires lo <= m && c >= 0.0 && lo * t <= w
    requires total == t + c && sum == w + m * c
    ensures lo * total <= sum
  {
    assert lo * c <= m * c;
    assert lo * (t + c) == lo * t + lo * c;
  }

  /** Adding a site whose mean is at most hi keeps the running weighted sum
      at most hi times the running count. */
  lemma UpperStep(hi: real, m: real, c: real, t: real, w: real, total: real, sum: real)
    requires m <= hi && c >= 0.0 && w <= hi * t
    requires total == t + c && sum == w + m * c
    ensures sum <= hi * total
  {
    assert m * c <= hi * c;
    assert hi * (t + c) == hi * t + hi * c;
  }

  lemma {:induction false} WeightedSumAbove(inputs: seq<Round1Input>, v: nat, j: nat, lo: real)
    requires MeanShapes(inputs, v) && j < v && MeansPresent(inputs, v, j)
    requires forall k :: 0 <= k < |inputs| ==> lo <= inputs[k].meanY[j].value
    ensures lo * (TotalCount(inputs, v, j) as real) <= WeightedSum(inputs, v, j)
  {
    if |inputs| > 0 {
      var n := |inputs|;
      var prefix, last := inputs[..n - 1], inputs[n - 1];
      assert forall k :: 0 <= k < n - 1 ==> prefix[k] == inputs[k];
      WeightedSumAbove(prefix, v, j, lo);
      LowerStep(lo, last.meanY[j].value, last.countY[j] as real,
                TotalCount(prefix, v, j) as real, WeightedSum(prefix, v, j),
                TotalCount(inputs, v, j) as real, WeightedSum(inputs, v, j));
    }
  }

  lemma {:induction false} WeightedSumBelow(inputs: seq<Round1Input>, v: nat, j: nat, hi: real)
    requires MeanShapes(inputs, v) && j < v && MeansPresent(inputs, v, j)
    requires forall k :: 0 <= k < |inputs| ==> inputs[k].meanY[j].value <= hi
    ensures WeightedSum(inputs, v, j) <= hi * (TotalCount(inputs, v, j) as real)
  {
    if |inputs| > 0 {
      var n := |inputs|;
      var prefix, last := inputs[..n - 1], inputs[n - 1];
      assert forall k :: 0 <= k < n - 1 ==> prefix[k] == inputs[k];
      WeightedSumBelow(prefix, v, j, hi);
      UpperStep(hi, last.meanY[j].value, last.countY[j] as real,
                TotalCount(prefix, v, j) as real, WeightedSum(prefix, v, j),
                TotalCount(inputs, v, j) as real, WeightedSum(inputs, v, j));
    }
  }

  /** The global mean of a response column lies between the smallest and the
      largest site mean. */
  lemma MeanBetweenSiteMeans(inputs: seq<Round1Input>, v: nat, j: nat, lo: real, hi: real)
    requires MeanShapes(inputs, v) && j < v && WeightedMean(inputs, v, j).Some?
    requires forall k :: 0 <= k < |inputs| ==> lo <= inputs[k].meanY[j].value <= hi
    ensures lo <= WeightedMean(inputs, v, j).value <= hi
  {
    WeightedSumAbove(inputs, v, j, lo);
    WeightedSumBelow(inputs, v, j, hi);
    QuotientBounds(lo, hi, WeightedSum(inputs, v, j), TotalCount(inputs, v, j) as real);
  }

  /** With a single site that has values in column j, the global mean is that site's mean. */
  lemma OneSiteMean(site: Round1Input, v: nat, j: nat)
    requires |site.meanY| == |site.countY| == v && j < v
    requires site.meanY[j].Some? && site.countY[j] > 0
    ensures MeanShapes([site], v) && WeightedMean([site], v, j) == site.meanY[j]
  {
    var m, c := site.meanY[j].value, site.countY[j] as real;
    assert [site][..0] == [];
    assert TotalCount([site], v, j) == site.countY[j];
    assert MeansPresent([site], v, j);
    var w := WeightedSum([site], v, j);
    assert WeightedSum([site][..0], v, j) == 0.0;
    assert w == m * c;
    QuotientOfMultiple(m, c);
    assert w / c == (m * c) / c;
    assert WeightedMean([site], v, j) == Some(w / c);
  }

  lemma QuotientOfMultiple(m: real, c: real)
    requires c > 0.0
    ensures (m * c) / c == m
  {
  }

  // ---------------------------------------------------------------------------
  // Round 2.

  /** What one site writes to `local_output` for round 2. */
  datatype Round2Input = Round2Input(
    sseLocal: Vector,     // `SSE_local`, one per response column
    varXLocal: Matrix)    // `varX_matrix_local`, p × p

  /** The statistics `remote_2` reports: one t-row and one p-row per response
      column (handed to `print_pvals`) and each site's local statistics by site. */
  datatype Output2 = Output2(tsGlobal: seq<Vector>, psGlobal: seq<Vector>, localStats: map<SiteId, LocalStats>)

  /** `dict(zip(keys, values))`: pairs are inserted in order and the shorter
      list ends the pairing. */
  function ZipToMap(keys: seq<SiteId>, values: seq<LocalStats>): (m: map<SiteId, LocalStats>)
    ensures forall id :: id in m ==> id in keys
    ensures forall id :: id in m ==> m[id] in values
    decreases |keys|
  {
    var n := if |keys| < |values| then |keys| else |values|;
    if n == 0 then map[]
    else ZipToMap(keys[..n - 1], values[..n - 1])[keys[n - 1] := values[n - 1]]
  }

  /** The keys of `dict(zip(keys, values))` are the keys that have a value to pair with. */
  lemma {:induction false} ZipKeys(keys: seq<SiteId>, values: seq<LocalStats>)
    ensures forall key :: key in ZipToMap(keys, values) <==>
              exists k :: 0 <= k < |keys| && k < |values| && keys[k] == key
  {
    var n := if |keys| < |values| then |keys| else |values|;
    if n > 0 {
      var keys0, values0 := keys[..n - 1], values[..n - 1];
      ZipKeys(keys0, values0);
      forall key
        ensures key in ZipToMap(keys, values) <==> exists k :: 0 <= k < |keys| && k < |values| && keys[k] == key
      {
        if key in ZipToMap(keys0, values0) {
          var k :| 0 <= k < |keys0| && k < |values0| && keys0[k] == key;
          assert keys[k] == key;
        }
        if key != keys[n - 1] && exists k :: 0 <= k < |keys| && k < |values| && keys[k] == key {
          var k :| 0 <= k < |keys| && k < |values| && keys[k] == key;
          assert keys0[k] == key;
        }
      }
    }
  }

  /** With distinct site names, each site is paired with the local statistics
      at its own position. */
  lemma {:induction false} ZipPairsByPosition(keys: seq<SiteId>, values: seq<LocalStats>, k: nat)
    requires Distinct(keys) && k < |keys| && k < |values|
    ensures keys[k] in ZipToMap(keys, values) && ZipToMap(keys, values)[keys[k]] == values[k]
  {
    var n := if |keys| < |values| then |keys| else |values|;
    var keys0, values0 := keys[..n - 1], values[..n - 1];
    assert ZipToMap(keys, values) == ZipToMap(keys0, values0)[keys[n - 1] := values[n - 1]];
    if k < n - 1 {
      assert Distinct(keys0);
      ZipPairsByPosition(keys0, values0, k);
      assert keys0[k] == keys[k] != keys[n - 1];
      assert values0[k] == values[k];
    }
  }

  /** The number of covariates p, read off the first site's `varX`. */
  function VarXSize(sites: seq<Site<Round2Input>>): nat {
    if |sites| == 0 then 0 else |sites[0].input.varXLocal|
  }

  /** Every site's SSE has v entries and its `varX` is p × p, and, when there
      is a site, the cached coefficients have one row of p entries per response
      column. With no sites the sums are the number 0 and the coefficients are
      never reached: the first `np.linalg.inv(0)` raises. */
  predicate Round2Shapes(sites: seq<Site<Round2Input>>, cache: Cache1) {
    var p, v := VarXSize(sites), |cache.dofGlobal|;
    && (forall k :: 0 <= k < |sites| ==> |sites[k].input.sseLocal| == v && IsMatrix(sites[k].input.varXLocal, p, p))
    && (|sites| > 0 ==> IsMatrix(cache.avgBetaVector, v, p))
  }

  /** `SSE_global = sum(...)`. */
  function GlobalSse(sites: seq<Site<Round2Input>>, v: nat): (s: Vector)
    requires forall k :: 0 <= k < |sites| ==> |sites[k].input.sseLocal| == v
    ensures |s| == v
  {
    SumVectors(seq(|sites|, k requires 0 <= k < |sites| => sites[k].input.sseLocal), v)
  }

  /** `varX_matrix_global = sum(...)`. */
  function GlobalVarX(sites: seq<Site<Round2Input>>, p: nat): (g: Matrix)
    requires forall k :: 0 <= k < |sites| ==> IsMatrix(sites[k].input.varXLocal, p, p)
    ensures IsMatrix(g, p, p)
  {
    SumMatrices(seq(|sites|, k requires 0 <= k < |sites| => sites[k].input.varXLocal), p, p)
  }

  /** `MSE = SSE_global / np.array(dof_global)`, entry by entry. */
  function Mse(ops: Ops, sse: Vector, dof: seq<int>): (mse: Vector)
    requires |sse| == |dof|
    ensures |mse| == |sse|
    ensures ExactDivision(ops) ==> forall i :: 0 <= i < |sse| && dof[i] != 0 ==> mse[i] * (dof[i] as real) == sse[i]
  {
    seq(|sse|, i requires 0 <= i < |sse| => ops.div(sse[i], dof[i] as real))
  }

  /** Entry j of the pooled SSE is the sum of the sites' entries j. */
  lemma GlobalSseEntry(sites: seq<Site<Round2Input>>, v: nat, j: nat)
    requires forall k :: 0 <= k < |sites| ==> |sites[k].input.sseLocal| == v
    requires j < v
    ensures GlobalSse(sites, v)[j] == Sum(seq(|sites|, k requires 0 <= k < |sites| => sites[k].input.sseLocal[j]))
  {
    var vs := seq(|sites|, k requires 0 <= k < |sites| => sites[k].input.sseLocal);
    SumVectorsEntry(vs, v, j);
    assert VectorEntries(vs, v, j) == seq(|sites|, k requires 0 <= k < |sites| => sites[k].input.sseLocal[j]);
  }

  /** Entry (i, j) of the pooled `varX` is the sum of the sites' entries (i, j). */
  lemma GlobalVarXEntry(sites: seq<Site<Round2Input>>, p: nat, i: nat, j: nat)
    requires forall k :: 0 <= k < |sites| ==> IsMatrix(sites[k].input.varXLocal, p, p)
    requires i < p && j < p
    ensures GlobalVarX(sites, p)[i][j]
         == Sum(seq(|sites|, k requires 0 <= k < |sites| => sites[k].input.varXLocal[i][j]))
  {
    var ms := seq(|sites|, k requires 0 <= k < |sites| => sites[k].input.varXLocal);
    SumMatricesEntry(ms, p, p, i, j);
    assert Entries(ms, p, p, i, j) == seq(|sites|, k requires 0 <= k < |sites| => sites[k].input.varXLocal[i][j]);
  }

  /** The first n t- and p-rows: row i divides coefficient row i by the
      standard errors from `MSE[i] * inv(varX)`, and takes the p-values of
      those t-values with `dof[i]` degrees of freedom. */
  predicate RowsAgree(ops: Ops, avgBeta: Matrix, mse: Vector, dof: seq<int>, inverse: Matrix, p: nat,
                      ts: seq<Vector>, ps: seq<Vector>, n: nat)
    requires IsMatrix(avgBeta, |mse|, p) && |dof| == |mse| && IsMatrix(inverse, p, p)
    requires n <= |mse| && |ts| == |ps| == n
  {
    forall i :: 0 <= i < n ==> ts[i] == TRow(ops, avgBeta[i], mse[i], inverse) && ps[i] == PRow(ops, ts[i], dof[i])
  }

  /** One t-row and one p-row per response column, as `RowsAgree` describes. */
  predicate StatisticRows(ops: Ops, avgBeta: Matrix, mse: Vector, dof: seq<int>, inverse: Matrix, p: nat,
                          ts: seq<Vector>, ps: seq<Vector>)
    requires IsMatrix(avgBeta, |mse|, p) && |dof| == |mse| && IsMatrix(inverse, p, p)
  {
    |ts| == |ps| == |mse| && RowsAgree(ops, avgBeta, mse, dof, inverse, p, ts, ps, |mse|)
  }

  /** Every t-row and every p-row has one entry per covariate. */
  lemma StatisticRowsWidth(ops: Ops, avgBeta: Matrix, mse: Vector, dof: seq<int>, inverse: Matrix, p: nat,
                           ts: seq<Vector>, ps: seq<Vector>)
    requires IsMatrix(avgBeta, |mse|, p) && |dof| == |mse| && IsMatrix(inverse, p, p)
    requires StatisticRows(ops, avgBeta, mse, dof, inverse, p, ts, ps)
    ensures forall i :: 0 <= i < |ts| ==> |ts[i]| == p && |ps[i]| == p
  {
    forall i | 0 <= i < |ts|
      ensures |ts[i]| == p && |ps[i]| == p
    {
      assert ts[i] == TRow(ops, avgBeta[i], mse[i], inverse);
    }
  }

  lemma RowsAgreeAppend(ops: Ops, avgBeta: Matrix, mse: Vector, dof: seq<int>, inverse: Matrix, p: nat,
                        ts: seq<Vector>, ps: seq<Vector>, t: Vector, pr: Vector)
    requires IsMatrix(avgBeta, |mse|, p) && |dof| == |mse| && IsMatrix(inverse, p, p)
    requires |ts| == |ps| < |mse| && RowsAgree(ops, avgBeta, mse, dof, inverse, p, ts, ps, |ts|)
    requires t == TRow(ops, avgBeta[|ts|], mse[|ts|], inverse) && pr == PRow(ops, t, dof[|ts|])
    ensures RowsAgree(ops, avgBeta, mse, dof, inverse, p, ts + [t], ps + [pr], |ts| + 1)
  {
  }

  /** The loop of `remote_2` that appends one t-row and one p-row per
      response column; `np.linalg.inv(varX)` is taken inside the loop, so it
      raises only when there is a column to process. */
  method StatisticLoop(ops: Ops, avgBeta: Matrix, mse: Vector, dof: seq<int>, varX: Matrix, p: nat)
    returns (r: Result<(seq<Vector>, seq<Vector>), Error>)
    requires InverseKeepsShape(ops)
    requires IsMatrix(avgBeta, |mse|, p) && |dof| == |mse| && IsMatrix(varX, p, p)
    ensures r.Success? <==> |mse| == 0 || ops.inv(varX).Some?
    ensures r.Failure? ==> r.error == LinAlgError
    ensures r.Success? ==> |r.value.0| == |r.value.1| == |mse|
    ensures r.Success? && |mse| > 0 ==>
              StatisticRows(ops, avgBeta, mse, dof, ops.inv(varX).value, p, r.value.0, r.value.1)
  {
    var ts: seq<Vector> := [];
    var ps: seq<Vector> := [];
    var i := 0;
    while i < |mse|
      invariant 0 <= i <= |mse| && |ts| == i && |ps| == i
      invariant i > 0 ==> ops.inv(varX).Some? && RowsAgree(ops, avgBeta, mse, dof, ops.inv(varX).value, p, ts, ps, i)
    {
      var inverse := ops.inv(varX);
      if inverse.None? {
        return Failure(LinAlgError);
      }
      var t := TRow(ops, avgBeta[i], mse[i], inverse.value);
      var pr := PRow(ops, t, dof[i]);
      RowsAgreeAppend(ops, avgBeta, mse, dof, inverse.value, p, ts, ps, t, pr);
      ts, ps := ts + [t], ps + [pr];
      i := i + 1;
    }
    r := Success((ts, ps));
  }

  /** The inputs on which `remote_2` returns instead of raising: the arrays fit
      together, and `np.linalg.inv` succeeds if the loop runs at all (with no
      sites `varX` is the number 0, which it refuses). */
  predicate Round2Accepted(ops: Ops, sites: seq<Site<Round2Input>>, cache: Cache1) {
    && Round2Shapes(sites, cache)
    && (|cache.dofGlobal| > 0 ==> |sites| > 0 && ops.inv(GlobalVarX(sites, VarXSize(sites))).Some?)
  }

  /** `remote_2`, on the sites' round-2 outputs in input order and the round-1 cache. */
  method Remote2(ops: Ops, sites: seq<Site<Round2Input>>, cache: Cache1) returns (r: Result<Output2, Error>)
    requires InverseKeepsShape(ops)
    ensures r.Success? <==> Round2Accepted(ops, sites, cache)
    ensures r == Failure(ShapeMismatch) <==> !Round2Shapes(sites, cache)
    ensures r == Failure(LinAlgError) <==> Round2Shapes(sites, cache) && !Round2Accepted(ops, sites, cache)
    ensures r.Success? ==>
              var p, v := VarXSize(sites), |cache.dofGlobal|;
              && |r.value.tsGlobal| == v && |r.value.psGlobal| == v
              && (v > 0 ==>
                    StatisticRows(ops, cache.avgBetaVector, Mse(ops, GlobalSse(sites, v), cache.dofGlobal),
                                  cache.dofGlobal, ops.inv(GlobalVarX(sites, p)).value, p,
                                  r.value.tsGlobal, r.value.psGlobal))
              && r.value.localStats == ZipToMap(SiteIds(sites), cache.localStatsDict)
  {
    if !Round2Shapes(sites, cache) {
      return Failure(ShapeMismatch);
    }
    var p, v := VarXSize(sites), |cache.dofGlobal|;
    if |sites| == 0 {
      if v > 0 {
        return Failure(LinAlgError);
      }
      return Success(Output2([], [], ZipToMap(SiteIds(sites), cache.localStatsDict)));
    }
    var mse := Mse(ops, GlobalSse(sites, v), cache.dofGlobal);
    var rows := StatisticLoop(ops, cache.avgBetaVector, mse, cache.dofGlobal, GlobalVarX(sites, p), p);
    if rows.Failure? {
      return Failure(LinAlgError);
    }
    r := Success(Output2(rows.value.0, rows.value.1, ZipToMap(SiteIds(sites), cache.localStatsDict)));
  }

  /** `[site for site in input_list]` */
  function SiteIds<T>(sites: seq<Site<T>>): (ids: seq<SiteId>)
    ensures |ids| == |sites| && forall k :: 0 <= k < |sites| ==> ids[k] == sites[k].id
  {
    seq(|sites|, k requires 0 <= k < |sites| => sites[k].id)
  }

  /** With a single site, the pooled MSE of a response column is that site's
      SSE over the degrees of freedom. */
  lemma OneSiteMse(ops: Ops, site: Site<Round2Input>, dof: seq<int>, i: nat)
    requires ExactDivision(ops)
    requires |site.input.sseLocal| == |dof| && i < |dof| && dof[i] != 0
    ensures Mse(ops, GlobalSse([site], |dof|), dof)[i] == site.input.sseLocal[i] / (dof[i] as real)
  {
    GlobalSseEntry([site], |dof|, i);
    assert seq(1, k requires 0 <= k < 1 => [site][k].input.sseLocal[i]) == [site.input.sseLocal[i]];
    assert Sum([site.input.sseLocal[i]]) == site.input.sseLocal[i] by {
      assert [site.input.sseLocal[i]][..0] == [];
    }
  }

  // ---------------------------------------------------------------------------
  // Dispatch.

  /** The round handlers of the coordinator. */
  datatype Handler = Remote0Handler | Remote1Handler | Remote2Handler

  /** The `__main__` block: the phase tags found in the input pick the handler,
      trying `local_0`, then `local_1`, then `local_2`. */
  function Dispatch(phaseKeys: seq<string>): (r: Result<Handler, Error>)
    ensures r == Success(Remote0Handler) <==> "local_0" in phaseKeys
    ensures r == Success(Remote1Handler) <==> "local_0" !in phaseKeys && "local_1" in phaseKeys
    ensures r == Success(Remote2Handler) <==>
              "local_0" !in phaseKeys && "local_1" !in phaseKeys && "local_2" in phaseKeys
    ensures r.Failure? <==> "local_0" !in phaseKeys && "local_1" !in phaseKeys && "local_2" !in phaseKeys
    ensures r.Failure? ==> r.error == UnknownPhase
  {
    if "local_0" in phaseKeys then Success(Remote0Handler)
    else if "local_1" in phaseKeys then Success(Remote1Handler)
    else if "local_2" in phaseKeys then Success(Remote2Handler)
    else Failure(UnknownPhase)
  }

  /** Only which tags occur matters, not their order or how often they occur. */
  lemma DispatchSeesOnlyTags(a: seq<string>, b: seq<string>)
    requires forall tag :: tag in a <==> tag in b
    ensures Dispatch(a) == Dispatch(b)
  {
  }
}
