/** Failure-carrying wrappers shared by the modules of this project. */
module Wrappers {

  /** An optional value: Python's `None` or a present object. */
  datatype Option<+T> = None | Some(value: T)

  /** The outcome of an operation that either returns a value or raises. */
  datatype Result<+T, +E> = Ok(value: T) | Err(error: E)
}
