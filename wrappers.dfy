/** Failure-compatible wrapper types used for the source's exceptions and nulls. */
module Wrappers {

  /** A nullable value: `None` stands for a missing (NaN/None) cell. */
  datatype Option<+T> = None | Some(value: T)

  /** The value of a call that either returns or raises. */
  datatype Result<+R, +E> = Success(value: R) | Failure(error: E)

  /** The outcome of a call that returns nothing (`-> None`) or raises. */
  datatype Outcome<+E> = Pass | Fail(error: E)
}
