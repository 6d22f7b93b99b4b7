/**
 Failure-compatible wrappers used throughout the model: `Option` stands for a
 nullable reference of the C# program, `Result` for a call that either
 returns a value or raises an exception.
 */
module Results {

  datatype Option<+T> = None | Some(value: T)

  datatype Result<+R, +E> = Success(value: R) | Failure(error: E) {

    predicate IsFailure() {
      Failure?
    }

    function PropagateFailure<U>(): Result<U, E>
      requires Failure?
    {
      Failure(error)
    }

    function Extract(): R
      requires Success?
    {
      value
    }
  }
}
