/** Optional values and results with an error, as returned by the handlers. */
module Wrappers {

  /** A value that may be absent: JavaScript's `undefined`/`null`, SQL's NULL. */
  datatype Option<+T> = None | Some(value: T) {
    function GetOr(default: T): T {
      match this
      case Some(v) => v
      case None => default
    }
  }

  /** The outcome of a handler: a value, or an error of type `E`. */
  datatype Result<+T, +E> = Success(value: T) | Failure(error: E)
}
