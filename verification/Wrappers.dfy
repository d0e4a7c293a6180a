/** Failure-compatible result types shared by the other modules. */
module Wrappers {

  /** A value, or nothing: Python's `None`, or a reader that gives up. */
  datatype Option<+T> = None | Some(value: T) {
    predicate IsFailure() {
      None?
    }

    function PropagateFailure<U>(): Option<U>
      requires None?
    {
      None
    }

    function Extract(): T
      requires Some?
    {
      value
    }
  }

  /** A value, or the exception the source raises. */
  datatype Result<+T, +E> = Success(value: T) | Failure(error: E)
}
