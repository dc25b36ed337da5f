/** Error-carrying results shared by every module of the model.  Python
    exceptions raised by the modelled code are represented by `Error`
    values instead of being excluded by preconditions. */
module Wrappers {

  /** The Python exception classes that the modelled code can raise. */
  datatype Error =
    | KeyError
    | IndexError
    | AssertionError
    | ValueError
    | TypeError
    | NotImplementedError
    | ZeroDivisionError
    | AttributeError
    | IOError

  datatype Option<+T> = None | Some(value: T)

  /** The value a Python call returns, or the exception it raises. */
  datatype Result<+T> = Success(value: T) | Failure(error: Error) {
    predicate IsFailure() { Failure? }

    function PropagateFailure<U>(): Result<U>
      requires Failure?
    {
      Failure(error)
    }

    function Extract(): T
      requires Success?
    {
      value
    }
  }

  /** The outcome of a Python call whose return value is None. */
  datatype Outcome = Pass | Fail(error: Error)
}
