/** Failure-carrying result types shared by every validator of the model. */
module Wrappers {

  /** A value that may be absent: a nil pointer field of a request is `None`. */
  datatype Option<+T> = None | Some(value: T)

  /** The outcome of a validator that may also rewrite its input. */
  datatype Result<+T, +E> = Success(value: T) | Failure(error: E)

  /** The outcome of a validator that only accepts or rejects. */
  datatype Outcome<+E> = Pass | Fail(error: E)
}
