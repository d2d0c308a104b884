/** Failure-compatible result types used throughout the gateway model. */
module Wrappers {

  datatype Option<+T> = None | Some(value: T)

  /** A value, or the error text Go would return beside a nil value. */
  datatype Result<+T> = Ok(value: T) | Err(error: string) {
    predicate IsFailure() { Err? }
    function PropagateFailure<U>(): Result<U>
      requires Err?
    {
      Err(error)
    }
    function Extract(): T
      requires Ok?
    {
      value
    }
  }
}
