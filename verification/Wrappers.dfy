/** Option and Result, the two failure-carrying shapes the other modules share. */
module Wrappers {
  datatype Option<+T> = None | Some(value: T)

  // One constructor per exception class the controllers raise.
  datatype Error = NotFound | Unauthorized | Forbidden | Conflict | BadRequest | Validation

  datatype Result<+T> = Ok(value: T) | Err(error: Error)
}
