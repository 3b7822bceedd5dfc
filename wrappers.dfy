/** Optional values and error results used across the model. */
module Wrappers {

  /** A value that may be absent (Python's `None`). */
  datatype Option<+T> = None | Some(value: T)

  /** The outcome of an operation that can raise: a value, or the message of the raised error. */
  datatype Result<+T> = Ok(value: T) | Err(message: string)
}
