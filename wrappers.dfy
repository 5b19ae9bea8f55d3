/** Option and Result, used across the model. */
module Wrappers {
  /** An optional value: a C pointer that may be NULL, a file that may not open. */
  datatype Option<+T> = None | Some(value: T)

  /** A value, or the error that made the C code print a diagnostic and exit. */
  datatype Result<+T, +E> = Ok(value: T) | Err(error: E)
}
