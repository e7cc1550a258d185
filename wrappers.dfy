/** Failure-compatible wrappers shared by the modules of this project. */
module Wrappers {
  datatype Option<+T> = None | Some(value: T)

  /** The outcome of an operation that can raise: its value, or the error raised. */
  datatype Result<+T, +E> = Ok(value: T) | Err(error: E)
}
