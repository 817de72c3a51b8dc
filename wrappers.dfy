/** Failure-carrying result types used in place of the C++ exceptions. */
module Wrappers {

  datatype Option<+T> = None | Some(value: T)

  /** A lookup that either yields a value or fails with an error code. */
  datatype Result<+R, +E> = Success(value: R) | Failure(error: E)

  /** The outcome of a handler that returns nothing: it passes, or it fails. */
  datatype Outcome<+E> = Pass | Fail(error: E)
}
