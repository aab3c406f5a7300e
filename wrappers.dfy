/** Option and Result values that stand in for Python's None and raised exceptions. */
module Wrappers {

  datatype Option<+T> = None | Some(value: T)

  /** `Err` carries the exception the Python code raises on that path. */
  datatype Result<+T, +E> = Ok(value: T) | Err(error: E)
}
