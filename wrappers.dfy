/** Option and Result, and the exception classes the three scripts raise or catch. */
module Wrappers {

  datatype Option<+T> = None | Some(value: T)

  /** The Python exception classes that decide which `except` clause runs.
      `DuplicateLabels` is not a Python exception: it stands for a frame whose
      column labels are no longer unique, a state the model does not carry on. */
  datatype Failure =
    | ValueError
    | KeyError
    | TypeError
    | IndexError
    | AttributeError
    | DuplicateLabels

  datatype Result<+T> = Ok(value: T) | Err(error: Failure) {
    predicate IsFailure() { Err? }
    function PropagateFailure<U>(): Result<U>
      requires Err?
    {
      Err(error)
    }
    function Extract(): T
      requires Ok?
    {
      value
    }
  }
}
