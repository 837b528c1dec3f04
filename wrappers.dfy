/** Failure-compatible wrappers used for optional values and error returns. */
module Wrappers {

  /** A value that may be absent (Python's `None`). */
  datatype Option<+T> = None | Some(value: T) {
    function GetOr(default: T): T {
      match this
      case Some(v) => v
      case None => default
    }
  }

  /** The outcome of an operation that can fail instead of returning a value. */
  datatype Result<+T, +E> = Success(value: T) | Failure(error: E)
}
