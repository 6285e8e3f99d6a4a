/** Option, Result and Outcome: the model's stand-ins for Kotlin's nullable values and thrown exceptions. */
module Wrappers {

  datatype Option<+T> = None | Some(value: T)

  /** The result of an operation that may throw: a value, or the exception it raised. */
  datatype Result<+T, +E> = Success(value: T) | Failure(error: E) {
    predicate IsFailure() { Failure? }

    function PropagateFailure<U>(): Result<U, E>
      requires Failure?
    {
      Failure(error)
    }

    function Extract(): T
      requires Success?
    {
      value
    }
  }

  /** The result of an operation that returns nothing but may throw. */
  datatype Outcome<+E> = Pass | Raised(error: E) {
    predicate IsFailure() { Raised? }

    function PropagateFailure(): Outcome<E>
      requires Raised?
    {
      this
    }
  }
}
