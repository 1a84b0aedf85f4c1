/** Option and Result datatypes used across the model. */
module Wrappers {

  /** A value that may be absent: the model of a Python `None` or empty dict. */
  datatype Option<+T> = None | Some(value: T)

  /** The outcome of an operation that the source lets raise an exception. */
  datatype Result<+R, +E> = Success(value: R) | Failure(error: E)
}
