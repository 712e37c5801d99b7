/** The two result shapes that the modelled components share. */
module Wrappers {

  /** A value that may be missing (a nullable column, a dictionary lookup). */
  datatype Option<+T> = None | Some(value: T)

  /** A computation that returned a value or raised an error. */
  datatype Result<+T, +E> = Ok(value: T) | Err(error: E)
}
