/** Option and Result, used throughout the model for JavaScript's
    `undefined`/`null` values and for promises that may reject. */
module Wrappers {

  datatype Option<+T> = None | Some(value: T) {
    function GetOr(default: T): T {
      match this
      case Some(v) => v
      case None => default
    }
  }

  /** A settled promise: resolved with a value or rejected with an error message. */
  datatype Result<+T, +E> = Success(value: T) | Failure(error: E)
}
