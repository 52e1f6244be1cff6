/** Optional values and call results. */
module Wrappers {

  /** A value that may be absent: the model of a nullable column or an optional argument. */
  datatype Option<+T> = None | Some(value: T) {

    /** The wrapped value, or `fallback` when absent: JavaScript's `??`. */
    function OrElse(fallback: T): T {
      if Some? then value else fallback
    }
  }

  /** Either a computed value or the error a call fails with. */
  datatype Result<+T, +E> = Success(value: T) | Failure(error: E)
}
