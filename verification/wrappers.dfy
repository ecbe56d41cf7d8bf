/** Failure-carrying datatypes shared by the model. */
module Wrappers {

  /** A value that may be missing: a JSON key that is absent, a reply that could not be used. */
  datatype Option<+T> = None | Some(value: T)

  /** A value, or the exception that would escape instead. */
  datatype Result<+T, +E> = Ok(value: T) | Err(error: E)
}
