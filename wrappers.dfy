/** Failure-compatible wrappers used by the validator model. */
module Wrappers {

  /** An optional value: the absence of a pointer-valued field. */
  datatype Option<+T> = None | Some(value: T)

  /** The outcome of an operation that may fail with an error of type E. */
  datatype Result<+T, +E> = Success(value: T) | Failure(error: E)
}
