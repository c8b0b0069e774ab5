/** The result types shared by the other modules. */
module Wrappers {
  datatype Option<+T> = None | Some(value: T)

  /** SD_ERR_NO_ERROR with a value, or one of the error codes of sd.h. */
  datatype Result<+T> = Ok(value: T) | Err(error: Error)

  datatype Error = Unspecified | Circular

  /** How a call ends: with a value, or by reading through a null pointer. */
  datatype Exit<+T> = Returned(value: T) | NullRead
}
