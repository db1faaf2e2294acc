/** Failure-carrying values shared by every module, and the Python exceptions the model raises. */
module Wrappers {

  datatype Option<+T> = None | Some(value: T)

  datatype Result<+T, +E> = Success(value: T) | Failure(error: E) {
    predicate IsFailure() { Failure? }

    function PropagateFailure<U>(): Result<U, E>
      requires Failure?
    {
      Failure(error)
    }

    function Extract(): T
      requires Success?
    {
      value
    }
  }

  /** The Python exception classes whose raising the model distinguishes. */
  datatype ExceptionKind = ValueError | KeyError | TypeError | OtherError

  /** An exception object as the commands store it in their error logs. */
  datatype Exception = Exception(kind: ExceptionKind, message: string)
}
