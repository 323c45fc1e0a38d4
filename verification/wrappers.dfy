/** Failure-carrying values shared by the other modules. */
module Wrappers {

  /** A value that may be absent; the model uses `None` for JavaScript's NaN results. */
  datatype Option<+T> = None | Some(value: T)

  /** A computation that either yields a value or stops with an error. */
  datatype Result<+T, +E> = Success(value: T) | Failure(error: E)
}
