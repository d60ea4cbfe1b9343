/** Failure-compatible return types for the operations that raise in the original code. */
module Outcomes {

  datatype Option<+T> = None | Some(value: T) {
    function GetOr(default: T): T
    {
      match this
      case Some(v) => v
      case None => default
    }
  }

  datatype Result<+R, +E> = Success(value: R) | Failure(error: E) {
    predicate IsFailure()
    {
      Failure?
    }

    function PropagateFailure<U>(): Result<U, E>
      requires Failure?
    {
      Failure(error)
    }

    function Extract(): R
      requires Success?
    {
      value
    }

    function MapFailure<F>(wrap: E -> F): Result<R, F>
    {
      match this
      case Success(v) => Success(v)
      case Failure(e) => Failure(wrap(e))
    }
  }

  /** A status without a value: the operation either completed or raised `error`. */
  datatype Outcome<+E> = Pass | Fail(error: E)
}
