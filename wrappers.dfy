/** Option and Result types standing in for Python's None and its raised exceptions. */
module Wrappers {

  /** The Python exception classes the reviewed code can raise. */
  datatype Error = KeyError | ValueError | TypeError | IndexError

  datatype Option<+T> = None | Some(value: T)

  /** A value, or the exception a Python call would have raised instead. */
  datatype Result<+T> = Ok(value: T) | Err(error: Error)

  /** The outcome of a Python call that returns nothing. */
  datatype Outcome = Pass | Fail(error: Error)
}
