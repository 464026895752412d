/** The two failure-carrying shapes the model uses: a possibly-null value and an outcome that may be an error. */
module Wrappers {

  /** A value that may be absent (JavaScript `null`). */
  datatype Option<+T> = None | Some(value: T)

  /** The result of a call that may throw: a value, or the error it throws. */
  datatype Result<+R, +E> = Success(value: R) | Failure(error: E)
}
