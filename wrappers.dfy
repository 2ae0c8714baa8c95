/** Failure-carrying values used in place of PHP's exceptions and its `false`/`null` returns. */
module Wrappers {

  datatype Option<+T> = None | Some(value: T) {
    function GetOr(default: T): T
    {
      match this
      case Some(v) => v
      case None => default
    }
  }

  datatype Result<+R, +E> = Success(value: R) | Failure(error: E)

  /** Success without a value, or a failure: the outcome of an operation that returns `void` or throws. */
  datatype Outcome<+E> = Pass | Fail(error: E)
}
