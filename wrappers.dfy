/** Failure-compatible result types shared by every module of the model. */
module Wrappers {

  /** An optional value; Go's nil interface, "not found" or "did not parse". */
  datatype Option<+T> = None | Some(value: T) {
    function GetOr(default: T): T {
      match this
      case Some(v) => v
      case None => default
    }
  }

  /** A value or an error, the model of Go's `(T, error)` return pair. */
  datatype Result<+T, +E> = Ok(value: T) | Err(error: E)
}
