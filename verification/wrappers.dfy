/** Failure-carrying values shared by the other modules of the model. */
module Wrappers {

  /** A value that may be absent. */
  datatype Option<+T> = None | Some(value: T)

  /** Either a value or the error that took its place. */
  datatype Result<+T, +E> = Success(value: T) | Failure(error: E)
}
