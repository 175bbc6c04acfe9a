/** Failure-carrying values used where the plugin raises or gives up. */
module Wrappers {

  /** A value, or nothing. */
  datatype Option<+T> = None | Some(value: T)

  /** A value, or the error the Python code would raise instead. */
  datatype Result<+T, +E> = Ok(value: T) | Err(error: E)
}
