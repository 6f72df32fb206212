/** Failure-carrying values shared by the model. */
module Wrappers {

  /** A value that may be absent: a file that does not exist, a key that is missing. */
  datatype Option<+T> = None | Some(value: T)

  /** An operation that either yields a value or stops with an error. */
  datatype Result<+R, +E> = Success(value: R) | Failure(error: E)

  /** An operation that yields nothing but may stop with an error. */
  datatype Outcome<+E> = Pass | Fail(error: E)
}
