/**
 A success-or-failure value, compatible with Dafny's `:-` operator, used for
 the outcome of a trajectory request: either the command list or the error
 that stopped it.
 */
module Wrappers {

  datatype Result<+R, +E> = Success(value: R) | Failure(error: E) {

    // `:-` stops at a failure and passes it on.
    predicate IsFailure() {
      Failure?
    }

    function PropagateFailure<U>(): Result<U, E>
      requires Failure?
    {
      Failure(error)
    }

    function Extract(): R
      requires Success?
    {
      value
    }
  }
}
