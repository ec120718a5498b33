/** Optional values and success-or-failure results, the two shapes the catalogue
    layer needs: absent JSON fields and operations that may throw. */
module Wrappers {

  /** A JSON field that may be absent (`undefined`/`null` in the JSON). */
  datatype Option<+T> = None | Some(value: T) {

    /** The wrapped value, or `default` when absent. */
    function GetOr(default: T): T {
      match this
      case Some(v) => v
      case None => default
    }
  }

  /** The outcome of an operation that either returns a value or throws an error. */
  datatype Result<+R, +E> = Success(value: R) | Failure(error: E)
}
