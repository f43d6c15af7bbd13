/** Failure-carrying values shared by the dataset and prompt modules. */
module Wrappers {

  datatype Option<+T> = None | Some(value: T)

  /** The outcome of an operation that the Python code lets raise an exception. */
  datatype Result<+T, +E> = Ok(value: T) | Err(error: E)
}
