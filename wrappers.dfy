/** Failure-carrying values shared by the modules of the model. */
module Wrappers {

  datatype Option<+T> = None | Some(value: T)

  /** The value of an operation that either succeeds or raises one of the program's errors. */
  datatype Result<+T, +E> = Ok(value: T) | Err(error: E)
}
