/** Option and Result: null-or-value and value-or-exception, for the values the
    client passes around. */
module Wrappers {

  /** A value that may be missing (a C# `null` reference). */
  datatype Option<+T> = None | Some(value: T) {
    /** The value, or `default` when there is none. */
    function GetOr(default: T): T {
      match this
      case Some(v) => v
      case None => default
    }
  }

  /** The value a call returns, or the exception it raises. */
  datatype Result<+R, +E> = Success(value: R) | Failure(error: E)
}
