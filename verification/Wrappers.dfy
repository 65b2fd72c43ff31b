/** The value-or-nothing and value-or-thrown-error types shared by every module. */
module Wrappers {

  datatype Option<+T> = None | Some(value: T)

  /** A JavaScript call that returns or throws. */
  datatype Result<+T, +E> = Ok(value: T) | Err(error: E)
}
