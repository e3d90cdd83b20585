/** Failure-compatible wrappers used throughout the model. */
module Wrappers {

  /** A value that may be absent; in a table cell, None is pandas' NaN / NaT. */
  datatype Option<+T> = None | Some(value: T)

  /** A computation that either yields a value or raises an error. */
  datatype Result<+R, +E> = Success(value: R) | Failure(error: E) {
    predicate IsFailure() {
      Failure?
    }

    function PropagateFailure<U>(): Result<U, E>
      requires Failure?
    {
      Failure(error)
    }

    function Extract(): R
      requires Success?
    {
      value
    }
  }

  /** A computation run for its effect that either completes or raises an error. */
  datatype Outcome<+E> = Pass | Fail(error: E)
}
