# Decentralised regression: coordinator and site helpers

This project models the exact-arithmetic core of a decentralised least-squares
regression for voxel-based morphometry (VBM). Several sites each hold a design
matrix X (covariates plus one indicator column per site) and responses y (one
column per voxel). They never share rows. Each site sends its sufficient
statistics: `XᵗX`, `Xᵗy`, and the mean and count of every response column. A
coordinator pools these into global coefficients, a global mean and the degrees
of freedom. In a second round it turns the pooled residual sums of squares into
t- and p-values.

The files:

- `wrappers.dfy`: `Option` (`None` is a missing value or a NaN) and `Result`
  (`Failure` is a raised exception).
- `linalg.dfy`: dense matrices as sequences of rows over `real`.
  - Python's `sum` over arrays, transposes, products, and `a.T @ b`.
  - The central algebraic fact: `a.T @ b` over the stacked rows of all sites
    is the sum of the sites' own products.
- `numerics.dfy`: the floating-point steps the model does not compute.
  - These are `np.linalg.inv`, `np.sqrt`, division, and the Student-t tail.
  - They are passed in as a record `Ops` of functions.
  - Two facts are assumed of them: `InverseKeepsShape` and `ExactDivision`.
- `local_ancillary.dfy`: the site side.
  - `mean_and_len_y`.
  - The substring test `client_id in col`.
  - `sm.add_constant` and `add_site_covariates`.
  - The voxel loop of `gather_local_stats`, writing into preallocated arrays.
  - The transpose in `local_stats_to_dict_numba`.
- `remote.dfy`: the coordinator.
  - `remote_0`'s output record.
  - `remote_1` and `remote_2`.
  - The `dict(zip(...))` pairing of sites with their local statistics.
  - The `__main__` phase dispatch.

Behaviour of the code that the model keeps:

- `remote.py:197` divides by `dof_global` without checking for zero or
  negative values. `Mse` leaves a division by zero to the abstract `div`.
- When `np.linalg.inv` raises, the whole round aborts. No column is skipped
  on its own, in the model or in the code.
- With zero sites, `remote_1` raises at `remote.py:61`, before the lambda
  check. The model reports `NoSites` there. `Remote.LambdaGuard` shows that
  the lambda check would reject that input too.
- `gather_local_stats` is compiled by Numba in nopython mode. Its scalar
  divisions `SSE / SST` (`local_ancillary.py:52`) and `SSE / dof`
  (`local_ancillary.py:57`) raise `ZeroDivisionError` rather than yield inf.
  A site therefore fails on a constant response column, or when it has
  exactly as many rows as covariates. `FitVoxel` returns `ZeroDivision` in
  both cases.

## Model

| member | source | states |
|---|---|---|
| LinAlg.SumMatrices | remote.py:79 | Python's `sum` over same-shape arrays yields an array of that shape |
| LinAlg.SumMatricesEntry | remote.py:75-85 | entry (i, j) of the summed arrays is the sum of the arrays' entries (i, j), in list order |
| LinAlg.SumOfOne | remote.py:79 | summing a list holding one array gives that array back |
| LinAlg.SumVectorsEntry | remote.py:188-189 | entry j of the summed vectors is the sum of the vectors' entries j |
| LinAlg.SumVectors | remote.py:188-189 | Python's `sum` over same-length one-dimensional arrays yields an array of that length; its entries are given by `SumVectorsEntry` |
| LinAlg.Transpose | local_ancillary.py:43 | `m.T` of an array with `cols` columns has `cols` rows, each as long as `m` has rows |
| LinAlg.MatVec | local_ancillary.py:43 | `a @ x` has one entry per row of `a` |
| LinAlg.MatMul | remote.py:92-93 | `a @ b` has `a`'s rows and `b`'s columns |
| LinAlg.CrossProduct | local_ancillary.py:43 | `a.T @ b` is p × c for p columns of `a` and c columns of `b`; its entries are given by `CrossProductEntry` |
| LinAlg.Gram | local_ancillary.py:43 | `X.T @ X` of an array with p columns is p × p |
| LinAlg.CrossProductEntry | local_ancillary.py:43 | entry (s, t) of `a.T @ b` is the sum over rows r of `a[r][s] * b[r][t]` |
| LinAlg.CrossProductOfStackedRows | remote.py:75-85 | splitting the rows into two blocks splits `a.T @ b` into the sum of the two blocks' products |
| LinAlg.CrossProductOfSites | remote.py:75-85 | `a.T @ b` over all sites' rows stacked together equals the sum of the per-site `a.T @ b`, so summing `XᵗX` and `Xᵗy` loses nothing |
| Numerics.TRow | remote.py:203-205 | the t-row of a coefficient vector has one entry per coefficient |
| Numerics.PRow | remote.py:206 | the p-row has one p-value per t-value |
| LocalAncillary.Mean | local_ancillary.py:25 | the mean is NaN exactly for an empty column; otherwise mean × count equals the sum |
| LocalAncillary.MeanAndLenY | local_ancillary.py:23-28 | one mean and one count per column; each count is at most the row count; the mean is present iff the count is positive; mean × count equals the sum of the non-missing entries |
| LocalAncillary.Present | local_ancillary.py:25-26 | the non-missing values that pandas' `mean` and `count` see are at most as many as the rows; `CountIsPresentRows` counts them exactly |
| LocalAncillary.CountIsPresentRows | local_ancillary.py:26 | a column's count is the number of rows whose entry is not missing |
| LocalAncillary.CountBelowRowsIffMissing | local_ancillary.py:26 | the count is below the row count iff the column has a missing entry |
| LocalAncillary.CompleteColumn | local_ancillary.py:25-26 | a column without missing entries contributes all of its values, in row order |
| LocalAncillary.Contains | local_ancillary.py:207 | `client_id in col` is true iff `client_id` occurs in `col` at some position; it is not an equality test |
| LocalAncillary.SelectCols | local_ancillary.py:206-208 | a site name is selected iff it is in the site list and contains the client id |
| LocalAncillary.SiteValue | local_ancillary.py:207-210 | a site column's value for this client is 1 iff the client id is a substring of the site name, and 0 otherwise |
| LocalAncillary.AddConstant | local_ancillary.py:199 | `sm.add_constant` keeps the row count and gives one label per column |
| LocalAncillary.HasConstant | local_ancillary.py:199 | statsmodels finds an existing constant column only in a design with at least one row and one column |
| LocalAncillary.AugmentedDesign | local_ancillary.py:197-217 | the augmented design has X's row count and one label per column |
| LocalAncillary.AddSiteCovariates | local_ancillary.py:202-217 | zero block, selected columns set to 1 in place, then concatenation: the result equals `AugmentedDesign` |
| LocalAncillary.SiteColumnIsIndicator | local_ancillary.py:202-210 | site column j is labelled with site name j and holds 1 in a row iff that name contains the client id as a substring, else 0 |
| LocalAncillary.SiteBlockRowsAgree | local_ancillary.py:202-210 | all rows of the site block are identical |
| LocalAncillary.SiteBlockOfUnlistedClient | local_ancillary.py:206-210 | if the client id occurs in no site name (the dropped reference site), the whole site block is 0 |
| LocalAncillary.DesignColumnOrder | local_ancillary.py:199-215 | without an existing constant column, the labels are `const`, X's labels, then the site list; the constant column is all ones; X's values are copied unchanged |
| LocalAncillary.AddConstantSkipsAugmented | local_ancillary.py:116-117 | the second `sm.add_constant` in `local_stats_to_dict_numba` leaves the augmented design and its labels unchanged |
| LocalAncillary.SumSquares | local_ancillary.py:48 | a sum of squares is never negative |
| LocalAncillary.TotalSumSquares | local_ancillary.py:49 | `np.sum(np.square(y - np.mean(y)))` is never negative |
| LocalAncillary.FitVoxel | local_ancillary.py:42-62 | one voxel's fit raises `ZeroDivision` iff SST = 0 (line 52) or rows = cols (line 57). Otherwise its coefficients are `inv(XᵗX)·Xᵗy`, it has one t-value per covariate, `dof = rows − cols`, and SSE ≥ 0 |
| LocalAncillary.Coefficients | local_ancillary.py:43 | `inv(XᵗX) @ (Xᵗy)` has one coefficient per covariate |
| LocalAncillary.ConstantColumnRaises | local_ancillary.py:49-52 | a non-empty response column whose values are all equal has SST = 0, so its fit raises `ZeroDivision` |
| LocalAncillary.RSquaredAtMostOne | local_ancillary.py:48-53 | whenever the fit returns, R² = 1 − SSE/SST is at most 1 |
| LocalAncillary.VoxelFits | local_ancillary.py:41-62 | the loop yields one fit per voxel processed, when none of those voxels divides by zero |
| LocalAncillary.VoxelFitsAt | local_ancillary.py:41-44 | voxel j's fit returns, and it depends only on column j of y |
| LocalAncillary.StoreFit | local_ancillary.py:44-62 | writing voxel `voxel` keeps the earlier voxels' entries, puts this fit in column `voxel`, and leaves every later voxel's entries unchanged |
| LocalAncillary.FitAllVoxels | local_ancillary.py:41-64 | the loop raises `Singular` iff `XᵗX` is singular. It raises `ZeroDivision` iff `XᵗX` is invertible but some response column has SST = 0 or rows = cols. Otherwise it fills every voxel's column of `params` and `tvalues` and entry of `sse` and `rsquared` with that voxel's fit, and returns `dof = rows − cols` |
| LocalAncillary.GatherLocalStats | local_ancillary.py:31-64 | `params` and `tvalues` are (cols × voxels) and `sse` and `rsquared` are (voxels). It raises exactly as `FitAllVoxels` does, and otherwise the arrays hold every voxel's fit |
| LocalAncillary.LocalStatsToDictNumba | local_ancillary.py:114-136 | labels are those of `sm.add_constant(X)`. The exceptions of `gather_local_stats` propagate. Otherwise `beta_vector = params.T` has one row per voxel, and row j is `inv(XᵗX)·Xᵗy_j` in label order |
| LocalAncillary.TransposedFits | local_ancillary.py:136 | once the loop has filled `params`, row j of `params.T` is voxel j's coefficients |
| Remote.ReadLocalOutputs | remote.py:63-67 | `input_list` holds one entry per site, in input order, with that site's file contents |
| Remote.Remote0 | remote.py:26-49 | the round-0 record is tagged `remote_0` with mask `mask.nii` and an empty cache; its keys and counts are those of the helper applied to every site's `categorical_dict` |
| Remote.WeightedMean | remote.py:95-101 | `mean_y_global[j]` is present iff no site's mean is NaN and the total count is positive; then mean × total count = Σ mean_site·count_site |
| Remote.Remote1 | remote.py:52-125 | fails with `NoSites` iff there are no sites; `UnequalLambdas` iff the lambda set is not a singleton; `LinAlgError` iff `ΣXᵗX` is singular. On success: coefficients `transpose(inv(ΣXᵗX)·ΣXᵗy)` of shape (v × p); the weighted global mean; `dof_global[j] = Σcount[j] − p`; labels from the first site; tag `remote_1`; the cache repeats the output's coefficients and mean |
| Remote.LambdaGuard | remote.py:87-90 | the lambda set has exactly one element iff there is at least one site and all sites report the same lambda |
| Remote.Lambdas | remote.py:87-89 | `np.unique(all_lambdas)` holds every site's lambda and is empty iff there is no site |
| Remote.GlobalXtxEntry | remote.py:75-79 | entry (i, j) of the pooled `XᵗX` is the sum of the sites' entries (i, j) |
| Remote.GlobalXtyEntry | remote.py:81-85 | entry (i, j) of the pooled `Xᵗy` is the sum of the sites' entries (i, j) |
| Remote.GlobalXtx | remote.py:75-79 | the pooled `XᵗX` is p × p; its entries are given by `GlobalXtxEntry` |
| Remote.GlobalXty | remote.py:81-85 | the pooled `Xᵗy` is p × v; its entries are given by `GlobalXtyEntry` |
| Remote.TotalCount | remote.py:100 | `sum(count_y_local)` at a response column is at least every site's own count there |
| Remote.LocalStatsList | remote.py:71-73 | one local-statistics entry per site |
| Remote.BetaColumn | remote.py:92-93 | row j of `transpose(inv · Xᵗy)` is `inv · (Xᵗ y_j)`, the coefficient vector `gather_local_stats` computes for column j |
| Remote.OneSiteBeta | remote.py:75-93 | when `remote_1` succeeds with one site, its `XᵗX` is invertible and the global coefficients are that site's `transpose(inv(XᵗX)·Xᵗy)` |
| Remote.OneSiteMatchesLocalFit | remote.py:92-93 | when `remote_1` succeeds with one site, coefficient row j equals the coefficients the site's own loop computes for response column j |
| Remote.PooledFit | remote.py:75-93 | when sites report `XᵗX` and `Xᵗy` of their own rows and `remote_1` succeeds, the stacked design's `XᵗX` is invertible and coefficient row j equals `inv(XᵗX)·Xᵗy_j` computed on all sites' rows stacked together |
| Remote.CompleteCountsTotal | remote.py:103 | when each site counts all its rows, the total count is the number of stacked rows |
| Remote.PooledDof | remote.py:103 | when `remote_1` succeeds with no missing responses, `dof_global[j]` is the stacked row count minus the covariates, the dof of the pooled fit |
| Remote.WeightedSumAbove | remote.py:99-100 | if every site mean is ≥ lo, then Σ mean·count ≥ lo · Σ count |
| Remote.WeightedSumBelow | remote.py:99-100 | if every site mean is ≤ hi, then Σ mean·count ≤ hi · Σ count |
| Remote.MeanBetweenSiteMeans | remote.py:95-101 | the global mean lies between the smallest and the largest site mean |
| Remote.OneSiteMean | remote.py:95-101 | with one site that has values, the global mean is that site's mean |
| Remote.ZipKeys | remote.py:214-216 | the keys of `dict(zip(sites, stats))` are the sites that have a stats entry to pair with |
| Remote.ZipPairsByPosition | remote.py:214-216 | with distinct site names, each site maps to the local statistics at its own position |
| Remote.ZipToMap | remote.py:216 | every key of `dict(zip(sites, stats))` is a site id and every value is one of the statistics; `ZipKeys` gives the keys exactly |
| Remote.Mse | remote.py:197 | one MSE per response column; MSE[i] × dof[i] = SSE[i] whenever dof[i] ≠ 0 |
| Remote.GlobalSseEntry | remote.py:188-189 | entry j of `SSE_global` is the sum of the sites' `SSE_local[j]` |
| Remote.GlobalVarXEntry | remote.py:192-194 | entry (i, j) of `varX_matrix_global` is the sum of the sites' entries (i, j) |
| Remote.GlobalSse | remote.py:188-189 | one pooled SSE per response column; its entries are given by `GlobalSseEntry` |
| Remote.GlobalVarX | remote.py:192-194 | the pooled `varX_matrix_global` is p × p; its entries are given by `GlobalVarXEntry` |
| Remote.OneSiteMse | remote.py:188-197 | with one site, MSE[i] is that site's SSE[i] / dof[i] |
| Remote.StatisticRowsWidth | remote.py:199-208 | every t-row and p-row has one entry per covariate |
| Remote.StatisticLoop | remote.py:199-208 | the loop raises `LinAlgError` iff there is a column and `varX` is singular. Otherwise it yields exactly one t-row and one p-row per response column: row i is `avg_beta[i] / sqrt(diag(MSE[i]·inv(varX)))` and its p-values at `dof[i]` |
| Remote.SiteIds | remote.py:214 | the site list has one name per site, in input order |
| Remote.Remote2 | remote.py:128-227 | `ShapeMismatch` iff the arrays do not fit together. The cached coefficients are checked only when there is a site. `LinAlgError` iff the loop runs and must invert a singular `varX`, or, with no sites, the number 0. On success: one t-row and one p-row per response column as in `StatisticLoop`, and local statistics paired with sites by position |
| Remote.Dispatch | remote.py:230-242 | `local_0` selects round 0; otherwise `local_1` selects round 1; otherwise `local_2` selects round 2; with none of them present it raises |
| Remote.DispatchSeesOnlyTags | remote.py:233-242 | the handler chosen depends only on which tags occur, not on their order or multiplicity |

## Left out

- Floating-point numerics are not modelled.
  - `np.linalg.inv`, `np.sqrt`, division and the Student-t tail (`reg.t_to_p`, `sp.stats.t.sf`) are abstract functions in `Ops`.
  - Only two facts are assumed about them: an inverse keeps the shape, and division by a nonzero number is exact.
  - Sums are exact `real` sums; `np.linalg.norm(...)**2` is an exact sum of squares.
- Numerics.TRow, Numerics.PRow: nothing about the numeric values of square roots or p-values is stated. `reg.t_to_p` is taken to act entry by entry.
- File and cache I/O is reduced to parameters: `read_file`, the `open`/`json.load` of `local_output`, and the `json.dump` to `remote_cache` (including the stray assignment at remote.py:123). JSON serialisation of the output records is not modelled.
- Remote.ReadLocalOutputs: the file read is the function parameter `read`. The `input_list` dictionary is modelled as a sequence in insertion order, so duplicate site names (impossible in a JSON object) are not collapsed.
- Remote.Remote0: `calculate_mask` (writing the mask file) is not modelled. `return_uniques_and_counts` is a function parameter, because its source is not part of this model.
- Remote.Remote1: shape errors are reported as `ShapeMismatch` before the lambda check. NumPy broadcasting is not modelled, so some differently shaped inputs NumPy would accept or reject later are rejected here:
  - an `Xᵗy` width that differs from the number of counts;
  - a non-square `XᵗX`, which NumPy would reject at `inv`.
- Remote.Remote2: shape errors are reported as `ShapeMismatch` before any `LinAlgError`. NumPy would raise them at the sum, at the division or inside the loop, whichever comes first.
- Remote.Mse: a zero `dof_global` entry gives the unspecified value of `div`, whereas NumPy gives inf or NaN.
- Remote.Remote2: its record exposes the t- and p-rows. The code hands these to `print_pvals` and outputs the resulting images rather than the rows.
- `print_pvals`, `print_beta_images`, `encode_png`, the PNG/base64 block of `local_stats_to_dict_numba`, and all of `ancillary.py` are left out. They are reporting I/O. Local statistics are opaque maps from file names to text.
- LocalAncillary.LocalStatsToDictNumba: the p-values of local_ancillary.py:124 are not computed, because they feed only the left-out reporting.
- `local_stats_to_dict` is left out. It is a wrapper over `statsmodels` OLS.
- `gather_local_stats` is compiled with `@jit(nopython=True)` and no `parallel=True`, so `prange` runs as a plain sequential `range`; the model's voxel loop is that sequential loop. Numba's compilation itself is not modelled.
- LocalAncillary.GatherLocalStats, LocalAncillary.FitAllVoxels: require at least one voxel. With none, `dof_global` is never bound before the `return`.
- LocalAncillary.FitVoxel: NaN responses are not modelled inside the fit. The responses are `real`. SST = 0 is decided in exact arithmetic, whereas the code compares a floating-point sum with zero.
- LocalAncillary.ConstantColumnRaises: only this direction is proved. The converse, that a column which varies has SST ≠ 0, is left unproved.
- LocalAncillary.FitAllVoxels: both exceptions are reported at the first voxel that raises, as the sequential loop does. The exception's message text is not modelled.
- LocalAncillary.AddConstant: models statsmodels' default `has_constant='skip'` only, and treats a design with no rows as having no constant column.
- `calculate_mask`, `return_uniques_and_counts`, `list_recursive` and the `regression` module are not part of this model. The phase tags gathered by `list_recursive` are the input of `Dispatch`.
