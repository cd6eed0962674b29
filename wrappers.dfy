/** Failure-compatible result types shared by every module of the model. */
module Wrappers {

  datatype Option<+T> = None | Some(value: T)

  /** The error kinds that the modelled Python code raises. */
  datatype Error =
    | ValueError(msg: string)
    | KeyError(missing: seq<string>)
    | RuntimeError(msg: string)
    | ZeroDivisionError
    | UnboundLocalError(name: string)
    | FileNotFoundError(path: string)
    | TypeError(msg: string)
    | MergeError(msg: string)
    | AttributeError(msg: string)

  datatype Result<+R> = Ok(value: R) | Err(error: Error) {
    predicate IsFailure() { Err? }

    function PropagateFailure<U>(): Result<U>
      requires Err?
    {
      Err(error)
    }

    function Extract(): R
      requires Ok?
    {
      value
    }
  }
}
