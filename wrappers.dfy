/** Optional values and results with an error message, shared by every module. */
module Wrappers {

  datatype Option<+T> = None | Some(value: T)

  /** A computation that either produces a value or raises with a message. */
  datatype Result<+T> = Ok(value: T) | Err(message: string)
}
