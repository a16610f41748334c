// Values shared by every module: an optional value and the result of an
// operation that the source may abort with an exception.
module Wrappers {
  datatype Option<+T> = None | Some(value: T)

  datatype Result<+T, +E> = Ok(value: T) | Err(error: E)
}
