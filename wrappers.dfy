/** Option and Result: the model's stand-ins for Python's `None` and for raised exceptions. */
module Wrappers {

  datatype Option<+T> = None | Some(value: T)

  /** The outcome of an operation that the Python code lets raise: `Err` carries what went wrong. */
  datatype Result<+T, +E> = Ok(value: T) | Err(error: E)
}
