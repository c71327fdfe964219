/** Option and Result values for the places where the application reads a
    possibly missing value or an operation can fail. */
module Wrappers {

  /** A value that may be absent (`undefined`/`null` in the application). */
  datatype Option<+T> = None | Some(value: T) {
    function GetOr(default: T): T {
      match this
      case Some(v) => v
      case None => default
    }
  }

  /** The outcome of an operation that either succeeds with a value or fails
      with an error. */
  datatype Result<+R, +E> = Success(value: R) | Failure(error: E)
}
