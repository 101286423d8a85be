/** Failure-compatible wrappers used for Java's nullable values and thrown exceptions. */
module Wrappers {

  /** A nullable reference or an `Optional`. */
  datatype Option<+T> = None | Some(value: T)

  /** The value of a call, or the exception it throws. */
  datatype Result<+T, +E> = Success(value: T) | Failure(error: E)

  /** The outcome of a `void` call: it returns normally or throws. */
  datatype Outcome<+E> = Pass | Fail(error: E)
}
