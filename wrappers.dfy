/** Failure-compatible wrappers shared by every module of the model.
    `Option` stands for JavaScript's `null`/`undefined`-or-value, `Result` for
    "returns a value or throws". */
module Wrappers {

  datatype Option<+T> = None | Some(value: T)

  datatype Result<+R, +E> = Success(value: R) | Failure(error: E) {
    predicate IsFailure() {
      Failure?
    }

    function PropagateFailure<U>(): Result<U, E>
      requires Failure?
    {
      Failure(error)
    }

    function Extract(): R
      requires Success?
    {
      value
    }
  }
}
