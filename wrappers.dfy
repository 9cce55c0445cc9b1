/** Failure-carrying wrappers used throughout the model. */
module Wrappers {

  /** A value that may be absent; `None` stands for the missing-value marker. */
  datatype Option<+T> = None | Some(value: T)

  /** The value of a computation that may raise; `Failure` carries the exception. */
  datatype Result<+T, +E> = Success(value: T) | Failure(error: E)

  /** The outcome of a computation run for its effect only. */
  datatype Outcome<+E> = Pass | Fail(error: E)
}
