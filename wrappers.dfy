/** Option and Result, the two failure-carrying values used across the model. */
module Wrappers {

  /** `None` stands for Python's `None` return ("nothing survived"). */
  datatype Option<+T> = None | Some(value: T)

  /** `Failure` stands for an exception raised by the source. */
  datatype Result<+R, +E> = Success(value: R) | Failure(error: E)
}
