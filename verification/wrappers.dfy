/** Failure-compatible result types shared by the whole model. */
module Wrappers {

  /** A value that may be absent: Go's nil for function-typed slots. */
  datatype Option<+T> = None | Some(value: T)

  /** Either a value or an error, as in Go's `(value, error)` returns. */
  datatype Result<+T, +E> = Success(value: T) | Failure(error: E) {
    predicate IsFailure() {
      Failure?
    }

    function PropagateFailure<U>(): Result<U, E>
      requires Failure?
    {
      Failure(error)
    }

    function Extract(): T
      requires Success?
    {
      value
    }
  }
}
