/** Option and Result, used for JavaScript's `undefined` and for calls that throw. */
module Wrappers {

  datatype Option<+T> = None | Some(value: T)

  /** The value a JavaScript call returns, or the message of the error it throws. */
  datatype Result<+T> = Ok(value: T) | Err(error: string)
}
