/** Optional values and validation outcomes used across the model. */
module Wrappers {

  /** A value that may be absent (JavaScript `null`/`undefined`). */
  datatype Option<+T> = None | Some(value: T)

  /** The outcome of a validation: the accepted value, or the issues found. */
  datatype Result<+T, +E> = Success(value: T) | Failure(error: E)
}
