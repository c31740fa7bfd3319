/** Optional values and results with an error, used by both scripts. */
module Wrappers {

  /** A value that may be absent: Python's `None`, or a dictionary key that is not there. */
  datatype Option<+T> = None | Some(value: T) {

    /** The value, or `default` when there is none (as `dict.get(key, default)` returns). */
    function GetOr(default: T): (r: T)
      ensures Some? ==> r == value
      ensures None? ==> r == default
    {
      match this
      case Some(v) => v
      case None => default
    }
  }

  /** The outcome of a step that may raise an exception. */
  datatype Result<+T, +E> = Success(value: T) | Failure(error: E)
}
