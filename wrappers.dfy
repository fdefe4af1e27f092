/** Optional values and results with an error value, used across the model. */
module Wrappers {

  /** A value that may be absent (Python's `None`). */
  datatype Option<+T> = None | Some(value: T)

  /** A value or the exception the source would raise instead. */
  datatype Result<+T, +E> = Ok(value: T) | Err(error: E)
}
