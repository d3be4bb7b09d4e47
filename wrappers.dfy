/** Option and Result, the usual shapes for Python's `None` and for an
    exception that a call may raise. */
module Wrappers {

  datatype Option<+T> = None | Some(value: T)

  datatype Result<+T, +E> = Ok(value: T) | Err(error: E)
}
