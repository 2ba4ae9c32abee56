/** The optional value and the success-or-error value used throughout the model. */
module Wrappers {

  /** Python's `None` or a value. */
  datatype Option<+T> = None | Some(value: T)

  /** A value, or the reason the source would have raised instead of returning one. */
  datatype Result<+T, +E> = Ok(value: T) | Err(error: E)
}
