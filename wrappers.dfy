/** Failure-carrying return values used in place of the driver's exceptions. */
module Wrappers {

  /** A value that may be absent; stands for a PHP array key that is not set (or null). */
  datatype Option<+T> = None | Some(value: T) {

    /** The value when present, otherwise the given default. */
    function GetOr(default: T): (r: T)
    {
      match this
      case Some(v) => v
      case None => default
    }
  }

  /** The outcome of an operation that either produces a value or raises an error. */
  datatype Result<+T, +E> = Success(value: T) | Failure(error: E)

  /** The outcome of a check that produces nothing but may raise an error. */
  datatype Outcome<+E> = Pass | Fail(error: E)
}
