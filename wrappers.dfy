/** Option and Result, the two failure-carrying wrappers used across the model. */
module Wrappers {

  datatype Option<+T> = None | Some(value: T)

  /** Ok carries a value; Err carries what a Python caller would see raised instead. */
  datatype Result<+T, +E> = Ok(value: T) | Err(error: E)
}
