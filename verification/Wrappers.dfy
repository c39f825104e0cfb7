/** The optional values and results used by the other modules. */
module Wrappers {

  datatype Option<+T> = None | Some(value: T)

  /** What a call gives back: a value, or the reason for which the source raises. */
  datatype Result<+T, +E> = Ok(value: T) | Err(error: E)
}
