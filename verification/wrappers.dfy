/** Failure-carrying datatypes used by the rest of the model. */
module Wrappers {

  /** A value that may be absent: Python's `None` or an actual value. */
  datatype Option<+T> = None | Some(value: T)

  /** The outcome of a step that either yields a value or raises. */
  datatype Result<+R, +E> = Success(value: R) | Failure(error: E)
}
