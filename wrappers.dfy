/** Option and Result, the failure-carrying values used across the model. */
module Wrappers {

  datatype Option<+T> = None | Some(value: T)

  /** The outcome of an operation that the Python code may abort with an exception. */
  datatype Result<+R, +E> = Success(value: R) | Failure(error: E)
}
