/** Failure-compatible result type. */
module Wrappers {

  /** A value that may be absent; a blank prompt answer is `None`. */
  datatype Option<+T> = None | Some(value: T)

  /** The value of a step, or the exception that ended the run. */
  datatype Result<+T, +E> = Ok(value: T) | Err(error: E) {

    predicate IsFailure() {
      Err?
    }

    function PropagateFailure<U>(): Result<U, E>
      requires Err?
    {
      Err(error)
    }

    function Extract(): T
      requires Ok?
    {
      value
    }
  }
}
