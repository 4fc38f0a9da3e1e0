/** Option, Result and Outcome datatypes shared by the modules. */
module Wrappers {

  /** A value that may be absent: Python's None, or a pandas null cell. */
  datatype Option<+T> = None | Some(value: T)

  /** A computation that either produced a value or raised an error. */
  datatype Result<+T, +E> = Ok(value: T) | Err(error: E)

  /** A computation that returns nothing but may raise an error. */
  datatype Outcome<+E> = Pass | Fail(error: E)
}
