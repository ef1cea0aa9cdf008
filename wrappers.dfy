/** Small result types shared by every module of the model. */
module Wrappers {

  /** Rust's `Option<T>`. */
  datatype Option<+T> = None | Some(value: T)

  /** Rust's `Result<T, E>`. */
  datatype Result<+T, +E> = Ok(value: T) | Err(error: E)
  {
    predicate IsFailure() { Err? }

    function PropagateFailure<U>(): Result<U, E>
      requires Err?
    {
      Err(error)
    }

    function Extract(): T
      requires Ok?
    {
      value
    }
  }

  /** How a call that may panic ends: it returns a value, or the program aborts. */
  datatype Completion<+T> = Returns(value: T) | Panics(message: string)
  {
    predicate IsFailure() { Panics? }

    function PropagateFailure<U>(): Completion<U>
      requires Panics?
    {
      Panics(message)
    }

    function Extract(): T
      requires Returns?
    {
      value
    }
  }
}
