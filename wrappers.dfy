/** Option and Result, the typed replacements for Python's None and for the
    error responses of the HTTP handlers. */
module Wrappers {

  datatype Option<+T> = None | Some(value: T)

  datatype Result<+T, +E> = Ok(value: T) | Err(error: E)
}
