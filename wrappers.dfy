/** Optional values: `None` stands for JavaScript's `undefined`, `null` or `NaN`
    wherever the application produces one. */
module Wrappers {

  datatype Option<+T> = None | Some(value: T) {

    /** The value, or `default` when there is none (JavaScript's `x ?? default`). */
    function GetOr(default: T): T {
      match this
      case Some(v) => v
      case None => default
    }
  }

  /** The outcome of a handler that either produces a new state or rejects
      the request with a reason (the reason is what the user is told). */
  datatype Result<+T, +E> = Success(value: T) | Failure(error: E)
}
