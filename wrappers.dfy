/** Option and Result values shared by the modules of the model. */
module Wrappers {

  /** A value that may be absent: JavaScript's `null`/`undefined` for an optional field. */
  datatype Option<+T> = None | Some(value: T) {
    /** The value, or `default` when absent (the source's `x ?? default`). */
    function GetOr(default: T): T {
      match this
      case Some(v) => v
      case None => default
    }
  }

  /** The outcome of a call that either succeeds with a value or throws an error. */
  datatype Result<+R, +E> = Ok(value: R) | Err(error: E)
}
