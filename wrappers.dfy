/** Option and Result, the conventional optional and success-or-failure values. */
module Wrappers {

  datatype Option<+T> = None | Some(value: T) {
    /** The wrapped value, or `default` when there is none (Python's `d.get(k, default)`). */
    function GetOr(default: T): T {
      match this
      case Some(v) => v
      case None => default
    }
  }

  /** `Failure` carries the message of an exception that escapes to the caller. */
  datatype Result<+R, +E> = Success(value: R) | Failure(error: E)
}
