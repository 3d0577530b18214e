/**
 * An optional value, used for PHP's nullable parameters and properties, and
 * the outcome of an operation that may throw.
 */
module Wrappers {
  datatype Option<T> = None | Some(value: T) {
    /** `$x ?? $fallback` */
    function GetOr(fallback: T): T {
      if Some? then value else fallback
    }
  }

  /** A value, or the message of the exception thrown instead. */
  datatype Result<T> = Success(value: T) | Failure(error: string)
}
