/** Failure-carrying values shared by the modules of this model. */
module Wrappers {

  /** A value that may be absent (Python's `None`). */
  datatype Option<+T> = None | Some(value: T)

  /** The outcome of a computation that can abort with an exception. */
  datatype Result<+T, +E> = Success(value: T) | Failure(error: E)
}
