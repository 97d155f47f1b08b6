/** Failure-compatible result types standing for values the source returns or exceptions it throws. */
module Wrappers {

  /** A value that may be missing: the source's `null`. */
  datatype Option<+T> = None | Some(value: T)

  /** A computed value or the exception that aborted the computation. */
  datatype Result<+R, +E> = Success(value: R) | Failure(error: E) {
    predicate IsFailure() { Failure? }

    function PropagateFailure<U>(): Result<U, E>
      requires Failure?
    {
      Failure(error)
    }

    function Extract(): R
      requires Success?
    {
      value
    }
  }

  /** An action that may have thrown: `Pass` when it returned normally. */
  datatype Outcome<+E> = Pass | Fail(error: E)
}
