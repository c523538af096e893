/** Failure-compatible wrappers shared by the logger's modules. */
module Wrappers {

  /** A value that may be absent: Java's nullable reference. */
  datatype Option<+T> = None | Some(value: T) {

    /** The wrapped value, or `default` when absent. */
    function GetOr(default: T): T {
      match this
      case Some(v) => v
      case None => default
    }
  }

  /** The normal return of an operation, or the exception it throws. */
  datatype Result<+R, +E> = Success(value: R) | Failure(error: E)
}
