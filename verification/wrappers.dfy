/** Option and Result, shared by the rest of the model. */
module Wrappers {

  /** A value that may be missing: an absent attribute, a failed call. */
  datatype Option<+T> = None | Some(value: T)

  /** The outcome of a step that may raise: the value, or the reason it raised. */
  datatype Result<+T, +E> = Ok(value: T) | Err(error: E)
}
