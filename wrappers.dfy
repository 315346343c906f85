/** Optional values and success/failure results, shared by the other modules. */
module Wrappers {

  /** A value that may be absent: an absent key of a request, a missing row of a query. */
  datatype Option<T> = None | Some(value: T) {

    /** The carried value, or `default` when there is none (Python's `dict.get(key, default)`). */
    function GetOr(default: T): (r: T)
      ensures Some? ==> r == value
      ensures None? ==> r == default
    {
      match this
      case Some(v) => v
      case None => default
    }
  }

  /** The outcome of an endpoint: a success value or an error message. */
  datatype Result<T, E> = Success(value: T) | Failure(error: E)
}
