/** Option, Outcome and Result, the three failure-carrying types the rest of the model uses. */
module Wrappers {

  datatype Option<+T> = None | Some(value: T) {
    function GetOr(default: T): T {
      match this
      case Some(v) => v
      case None => default
    }
  }

  /** The outcome of an operation that either completes or raises. */
  datatype Outcome<+E> = Pass | Fail(error: E)

  /** A value, or the error the operation raised instead. */
  datatype Result<+T, +E> = Ok(value: T) | Err(error: E)
}
