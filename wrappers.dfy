/** The optional value used wherever the Python code may raise a KeyError
    or a dialog may be cancelled. */
module Wrappers {

  datatype Option<+T> = None | Some(value: T)

  datatype Result<+T, +E> = Ok(value: T) | Err(error: E)
}
