/** Failure-carrying results: the model's form of C++ exceptions and of std::optional. */
module Wrappers {

  datatype Option<+T> = None | Some(value: T)

  datatype Result<+R, +E> = Success(value: R) | Failure(error: E) {
    predicate IsFailure() {
      Failure?
    }

    function PropagateFailure<U>(): Result<U, E>
      requires Failure?
    {
      Failure(error)
    }

    function Extract(): R
      requires Success?
    {
      value
    }
  }

  /** How a method that may throw ended. */
  datatype Outcome<+E> = Pass | Fail(error: E)
}
