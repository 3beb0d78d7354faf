/** Option and Result, used for missing cells and for the exceptions the pipeline raises. */
module Wrappers {

  /** A value that may be absent: a missing (NaN) cell, an optional file. */
  datatype Option<+T> = None | Some(value: T)

  /** The outcome of a step that can raise; usable with `:-`. */
  datatype Result<+T, +E> = Ok(value: T) | Err(error: E) {

    predicate IsFailure()
    {
      Err?
    }

    function PropagateFailure<U>(): Result<U, E>
      requires Err?
    {
      Err(error)
    }

    function Extract(): T
      requires Ok?
    {
      value
    }
  }
}
