/** Option and Result datatypes shared by the other modules. */
module Wrappers {

  /** A value that may be absent; Python's `None` where a float or string is expected. */
  datatype Option<+T> = None | Some(value: T)

  /** Either a value or the exception the Python code would raise instead. */
  datatype Result<+T, +E> = Ok(value: T) | Err(error: E)
}
