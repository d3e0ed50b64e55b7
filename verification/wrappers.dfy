/** Option and Result values standing in for Python's `None` and for the
    exceptions that the ORM raises. */
module Wrappers {

  datatype Option<+T> = None | Some(value: T)

  datatype Result<+T, +E> = Ok(value: T) | Err(error: E)
}
