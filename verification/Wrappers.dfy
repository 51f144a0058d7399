/** Success and error values shared by every module. */
module Wrappers {

  datatype Option<+T> = None | Some(value: T)

  /** The source's `Result`: a value, or the error that aborted the operation. */
  datatype Result<+T, +E> = Ok(value: T) | Err(error: E)
}
