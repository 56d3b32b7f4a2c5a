/** Failure-compatible result types shared by the other modules. */
module Wrappers {

  /** Python's "a value or None". */
  datatype Option<+T> = None | Some(value: T)

  /** A value or the exception the source would raise instead. */
  datatype Result<+T, +E> = Success(value: T) | Failure(error: E)
}
