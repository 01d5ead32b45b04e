/** Failure-compatible wrappers shared by every module: an optional value
    (Python's None) and an outcome that carries the exception the Python code
    would raise. */
module Wrappers {

  datatype Option<+T> = None | Some(value: T) {
    predicate IsFailure() { None? }

    function PropagateFailure<U>(): Option<U>
      requires None?
    {
      None
    }

    function Extract(): T
      requires Some?
    {
      value
    }
  }

  /** The Python exception classes the modelled code can raise. */
  datatype Error =
    | KeyError(key: string)
    | ValueError(message: string)
    | AttributeError
    | IndexError
    | AssertionError
    | RaisedException(message: string)

  datatype Result<+T> = Ok(value: T) | Err(error: Error) {
    predicate IsFailure() { Err? }

    function PropagateFailure<U>(): Result<U>
      requires Err?
    {
      Err(error)
    }

    function Extract(): T
      requires Ok?
    {
      value
    }
  }
}
