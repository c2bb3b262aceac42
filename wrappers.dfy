/**
 * Optional values (a JavaScript `null`/`undefined` or a SQL `NULL` on one
 * side, a value on the other) and results that are a value or an error.
 */
module Wrappers {

  datatype Option<+T> = None | Some(value: T) {

    /** Returns the value held by `Some`, or `default` for `None`. */
    function GetOr(default: T): (r: T)
      ensures Some? ==> r == value
      ensures None? ==> r == default
    {
      match this
      case Some(v) => v
      case None => default
    }
  }

  /** A value, or the message of the error thrown instead. */
  datatype Result<+R, +E> = Success(value: R) | Failure(error: E)
}
