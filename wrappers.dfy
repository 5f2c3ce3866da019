/** Failure-carrying results shared by all modules. */
module Wrappers {

  datatype Option<T> = None | Some(value: T)

  /** The value of a Go `(T, error)` pair: either a value or an error. */
  datatype Result<T, E> = Ok(value: T) | Err(error: E)
}
