/** Optional values and validated results, used in place of None and of raised exceptions. */
module Wrappers {

  datatype Option<+T> = None | Some(value: T)

  /** Failure carries the reason a request was refused; the surrounding transaction is then rolled back. */
  datatype Result<+T, +E> = Success(value: T) | Failure(error: E) {
    predicate IsFailure() {
      Failure?
    }

    function PropagateFailure<U>(): Result<U, E>
      requires Failure?
    {
      Failure(error)
    }

    function Extract(): T
      requires Success?
    {
      value
    }
  }
}
