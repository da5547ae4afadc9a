/** Failure-compatible wrappers shared by the whole model. */
module Wrappers {

  /** A value that may be absent: `undefined`, `NaN` or a failed `find`. */
  datatype Option<+T> = None | Some(value: T)

  /** The outcome of an operation that can throw in the program. */
  datatype Result<+T, +E> = Ok(value: T) | Err(error: E)
}
