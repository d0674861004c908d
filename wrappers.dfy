/** Option and Result, the failure-carrying values used throughout the model. */
module Wrappers {

  datatype Option<+T> = None | Some(value: T) {
    function GetOr(default: T): T {
      match this
      case Some(v) => v
      case None => default
    }
  }

  /** Python raises; the model returns `Err` with the exception it would raise. */
  datatype Result<+T, +E> = Ok(value: T) | Err(error: E)
}
