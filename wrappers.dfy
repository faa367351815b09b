/** An optional value (a dictionary key that may be missing) and the outcome of a call (a value or an error), shared by the rest of the model. */
module Wrappers {

  /** An optional value: a dictionary key that may be missing. */
  datatype Option<+T> = None | Some(value: T)

  /** The outcome of a call that either returns a value or raises an error. */
  datatype Result<+T, +E> = Ok(value: T) | Err(error: E)
}
