/** Failure-carrying results shared by every component. */
module Wrappers {
  datatype Option<+T> = None | Some(value: T)

  /** `Failure` stands for a thrown exception; its payload says which throw it was. */
  datatype Result<+T, +E> = Success(value: T) | Failure(error: E) {
    predicate IsFailure() {
      Failure?
    }

    function PropagateFailure<U>(): Result<U, E>
      requires Failure?
    {
      Failure(error)
    }

    function Extract(): T
      requires Success?
    {
      value
    }
  }
}
