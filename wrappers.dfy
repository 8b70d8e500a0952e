/** The optional value and the return-or-raise result the other modules share. */
module Wrappers {

  /** A value that may be absent, as Python's None. */
  datatype Option<+T> = None | Some(value: T)

  /** The value of an operation that either returns or raises. */
  datatype Result<+T, +E> = Ok(value: T) | Err(error: E)
}
