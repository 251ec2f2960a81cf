/** Failure-carrying wrappers used throughout the model. */
module Wrappers {

  /** An optional value: the model's stand-in for Python's `None`. */
  datatype Option<+T> = None | Some(value: T)

  /** The outcome of a call that can raise: `Err` carries the exception's reason. */
  datatype Result<+T, +E> = Ok(value: T) | Err(error: E)
}
