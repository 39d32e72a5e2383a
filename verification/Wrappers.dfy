/** Absent values and failed computations. */
module Wrappers {

  /** A value, or none: absence, or some exception whose message does not matter. */
  datatype Option<+T> = None | Some(value: T) {
    predicate IsFailure() { None? }
    function PropagateFailure<U>(): Option<U>
      requires None?
    {
      None
    }
    function Extract(): T
      requires Some?
    {
      value
    }
  }

  /** Outcome of an operation that may throw an error. */
  datatype Result<+T> = Ok(value: T) | Throw(error: string) {
    predicate IsFailure() { Throw? }
    function PropagateFailure<U>(): Result<U>
      requires Throw?
    {
      Throw(error)
    }
    function Extract(): T
      requires Ok?
    {
      value
    }
  }
}
