/** Option and Result, the two wrapper types the rest of the model uses for
    JavaScript's `undefined`/`null` and for rejected operations. */
module Wrappers {

  datatype Option<+T> = None | Some(value: T) {
    function GetOr(default: T): T {
      match this
      case Some(v) => v
      case None => default
    }
  }

  datatype Result<+R, +E> = Ok(value: R) | Err(error: E)
}
