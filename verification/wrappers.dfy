/** Failure-compatible wrappers used throughout the model: an optional value
    (a JavaScript `undefined`/`NaN` becomes `None`) and a result that carries
    either a value or the message of a thrown `Error`. */
module Wrappers {

  datatype Option<+T> = None | Some(value: T) {
    /** The value, or `default` when there is none (JavaScript's `x || default`
        when the only falsy case is absence). */
    function GetOr(default: T): T {
      match this
      case Some(v) => v
      case None => default
    }
  }

  datatype Result<+R, +E> = Success(value: R) | Failure(error: E)
}
