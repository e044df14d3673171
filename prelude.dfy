/** Small failure-compatible wrappers shared by the rest of the model. */
module Prelude {

  datatype Option<+T> = None | Some(value: T)

  /** The model's stand-in for a thrown JavaScript exception: `Failure` carries what was thrown. */
  datatype Result<+T, +E> = Success(value: T) | Failure(error: E) {
    predicate IsFailure() { Failure? }
    function PropagateFailure<U>(): Result<U, E>
      requires Failure?
    {
      Failure(error)
    }
    function Extract(): T
      requires Success?
    {
      value
    }
  }

  function Min(a: int, b: int): int { if a <= b then a else b }
}
