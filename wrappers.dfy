/** Option and Result values used for JavaScript's `undefined`/`null` returns and thrown errors. */
module Wrappers {

  datatype Option<+T> = None | Some(value: T) {
    function GetOr(default: T): T {
      match this
      case Some(v) => v
      case None => default
    }
  }

  /** A thrown JavaScript error is modelled as a `Failure`. */
  datatype Result<+T, +E> = Success(value: T) | Failure(error: E)

  /** The outcome of a mutation that may throw before touching any state. */
  datatype Outcome<+E> = Pass | Fail(error: E)
}
