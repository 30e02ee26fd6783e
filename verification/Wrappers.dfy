/** Failure-carrying values used throughout the model. */
module Wrappers {

  /** An optional value: Go's nil pointer, or a value with its `ok` flag. */
  datatype Option<+T> = None | Some(value: T)

  /** A value, or the reason why there is none: Go's `(value, error)` pair. */
  datatype Result<+T, +E> = Ok(value: T) | Err(error: E)
}
