/** The floating-point steps of the regression that this model does not
    compute: matrix inversion (`np.linalg.inv`), square roots (`np.sqrt`),
    division that may meet a zero divisor, and the two-tailed Student-t
    p-value.  They are passed in as a record of functions; the model only
    relies on the facts `InverseKeepsShape` and `ExactDivision` state about
    them, each required where it is used. */
module Numerics {
  import opened Wrappers
  import opened LinAlg

  datatype Ops = Ops(
    /** `np.linalg.inv`; `None` when it raises `LinAlgError` (a singular matrix). */
    inv: Matrix -> Option<Matrix>,
    /** `np.sqrt` on one number. */
    sqrt: real -> real,
    /** Floating-point `a / b` on NumPy arrays; at `b == 0` it yields inf or NaN, which the model leaves
        unspecified. The scalar divisions of the jitted site loop raise instead, and the loop's
        model checks their divisors before dividing. */
    div: (real, real) -> real,
    /** The two-tailed p-value of a t-statistic with the given degrees of freedom. */
    tailP: (real, int) -> real)

  /** The inverse of a square array, when it exists, has the array's shape. */
  ghost predicate InverseKeepsShape(ops: Ops) {
    forall m: Matrix :: IsMatrix(m, |m|, |m|) && ops.inv(m).Some? ==> IsMatrix(ops.inv(m).value, |m|, |m|)
  }

  /** Division by a nonzero number is exact division. */
  ghost predicate ExactDivision(ops: Ops) {
    forall a: real, b: real :: b != 0.0 ==> ops.div(a, b) == a / b
  }

  /** The t-statistics of one coefficient vector: `beta / sqrt(diag(mse * inverse))`,
      entry by entry, as both the site fit and the coordinator's round 2 compute them. */
  function TRow(ops: Ops, beta: Vector, mse: real, inverse: Matrix): (t: Vector)
    requires IsMatrix(inverse, |beta|, |beta|)
    ensures |t| == |beta|
  {
    seq(|beta|, k requires 0 <= k < |beta| => ops.div(beta[k], ops.sqrt(mse * inverse[k][k])))
  }

  /** The p-values of a row of t-statistics, entry by entry. */
  function PRow(ops: Ops, ts: Vector, dof: int): (p: Vector)
    ensures |p| == |ts|
  {
    seq(|ts|, k requires 0 <= k < |ts| => ops.tailP(ts[k], dof))
  }
}
