/** Failure-carrying result types shared by the model. */
module Wrappers {

  /** A value that may be absent (the source's `T | undefined`). */
  datatype Option<+T> = None | Some(value: T)

  /** The outcome of an operation that may be rejected with an error. */
  datatype Result<+T, +E> = Success(value: T) | Failure(error: E)
}
