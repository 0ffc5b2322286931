/** Option and Result values for missing numbers and for the exceptions the
    coordinator and the site helpers raise. */
module Wrappers {

  /** `None` stands for a value that is not a finite number: a missing entry
      of a response table, or a NaN produced by a reduction over no data. */
  datatype Option<+T> = None | Some(value: T)

  /** `Failure` stands for an exception raised by the Python code. */
  datatype Result<+T, +E> = Success(value: T) | Failure(error: E)
}
