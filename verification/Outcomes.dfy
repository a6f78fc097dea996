/** What a Python call can do: return a value or raise an exception. */
module Outcomes {

  datatype Option<+T> = None | Some(value: T)

  /** The exception classes the modelled code raises or lets through. */
  datatype Exc =
    | ValueError
    | TypeError
    | KeyError
    | AssertionError
    | RuntimeError
    | RecursionError
    | AttributeError
    | NotImplementedError
    | OverflowError
    | UnicodeError
    | StructError
    | SharedMemoryException
    | FunctionLoadError
    | HttpServerInitError
    | UserException(code: int)

  datatype Outcome<+T> = Returned(value: T) | Raised(exc: Exc) {
    predicate IsFailure() { Raised? }

    function PropagateFailure<U>(): Outcome<U>
      requires Raised?
    {
      Raised(exc)
    }

    function Extract(): T
      requires Returned?
    {
      value
    }
  }
}
