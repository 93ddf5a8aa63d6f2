/** Option and Result values used where the page and the form either produce a
    value or report why they did not. */
module Wrappers {

  datatype Option<+T> = None | Some(value: T)

  /** A value, or the message of the error that replaced it. */
  datatype Result<+T> = Ok(value: T) | Err(message: string)
}
