/** Failure-carrying result types shared by the whole model. */
module Wrappers {

  /** A value that may be absent (Python's `X | None`). */
  datatype Option<+T> = None | Some(value: T)

  /** Either a value or the exception the Python implementation would raise instead. */
  datatype Result<+T, +E> = Ok(value: T) | Err(error: E)
}
