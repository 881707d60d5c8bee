/** Failure-compatible wrappers shared by every module of the model. */
module Wrappers {

  /** Python's `None` or a present value. */
  datatype Option<+T> = None | Some(value: T) {
    function GetOr(default: T): T {
      match this
      case Some(v) => v
      case None => default
    }
  }

  /** The value of a call, or the error it would have raised. */
  datatype Result<+T, +E> = Ok(value: T) | Err(error: E)
}
