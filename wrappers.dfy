/** Option and Result, the shapes the Python code uses for `None` returns and raised exceptions. */
module Wrappers {

  datatype Option<+T> = None | Some(value: T)

  /** A value, or the exception the Python code would raise instead. */
  datatype Result<+R, +E> = Ok(value: R) | Err(error: E)
}
