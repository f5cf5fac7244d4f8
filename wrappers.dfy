/** Failure-carrying values that stand in for the source's `null`, thrown
    errors and `{ data, error }` responses. */
module Wrappers {

  datatype Option<+T> = None | Some(value: T) {
    /** The value, or `default` when absent (JavaScript's default parameters). */
    function GetOr(default: T): T {
      match this
      case Some(v) => v
      case None => default
    }
  }

  /** A call that either returns a value or fails with an error. */
  datatype Result<+T, +E> = Success(value: T) | Failure(error: E)

  /** A call that returns nothing, or fails with an error. */
  datatype Outcome<+E> = Pass | Fail(error: E)
}
