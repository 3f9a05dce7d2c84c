/** Option and Result, the two failure-carrying datatypes the model uses for
    JavaScript's `undefined`/`null` values and for early error returns. */
module Wrappers {

  datatype Option<+T> = None | Some(value: T) {
    function GetOr(default: T): T {
      match this
      case Some(v) => v
      case None => default
    }
  }

  datatype Result<+T, +E> = Success(value: T) | Failure(error: E)
}
