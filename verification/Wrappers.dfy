// A value that may be missing, and one that may be an error instead.

module Wrappers {

  datatype Option<+T> = None | Some(value: T)
  datatype Result<+T, +E> = Ok(value: T) | Err(error: E)
}
