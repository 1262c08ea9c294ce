/** Optional values and results that carry an error message in place of an exception. */
module Wrappers {

  datatype Option<+T> = None | Some(value: T) {
    function GetOr(default: T): T {
      match this
      case Some(v) => v
      case None => default
    }
  }

  /** The outcome of an operation that may raise: the value, or the message of the exception. */
  datatype Result<+R> = Success(value: R) | Failure(error: string)
}
