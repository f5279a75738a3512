/** Failure-compatible wrappers and the error kinds the pipeline raises. */
module Base {

  datatype Option<T> = None | Some(value: T) {
    function GetOr(default: T): T {
      if Some? then value else default
    }
  }

  /** The Python exceptions the modelled code can raise, by class. */
  datatype Error =
    | ValueError(reason: string)
    | KeyError(key: string)
    | TypeError(reason: string)
    | AttributeError(reason: string)
    | AssertionError(reason: string)
    | IndexError(reason: string)
    | OverflowError(reason: string)
    | StopIteration
    | ArrowInvalid(reason: string)
    | ComponentFailure(reason: string)

  datatype Result<T> = Ok(value: T) | Err(error: Error) {
    predicate IsFailure() {
      Err?
    }

    function PropagateFailure<U>(): Result<U>
      requires Err?
    {
      Err(error)
    }

    function Extract(): T
      requires Ok?
    {
      value
    }
  }
}
