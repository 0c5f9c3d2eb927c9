/** Option and Result, the failure-carrying values used across the model. */
module Wrappers {

  /** A value that may be absent: `undefined`/`null` in the application. */
  datatype Option<+T> = None | Some(value: T)

  /** The outcome of an operation that may throw: a value or an error. */
  datatype Result<+T, +E> = Success(value: T) | Failure(error: E)
}
