/** Option and Result, the failure-compatible wrappers used across the model. */
module Wrappers {

  /** A possibly missing value: `None` stands for a null cell of a data frame. */
  datatype Option<T> = None | Some(value: T)

  /** The outcome of a stage that may abort: `Err` stands for the `sys.exit(1)` path. */
  datatype Result<T, E> = Ok(value: T) | Err(error: E) {

    predicate IsFailure() {
      Err?
    }

    function PropagateFailure<U>(): Result<U, E>
      requires Err?
    {
      Err(error)
    }

    function Extract(): T
      requires Ok?
    {
      value
    }
  }
}
