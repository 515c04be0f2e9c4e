/** Result types shared by the models. */
module Wrappers {

  datatype Option<+T> = None | Some(value: T)

  /** A computation that either yields a value or stops with an error. */
  datatype Result<+T, +E> = Ok(value: T) | Err(error: E) {
    predicate IsFailure() {
      Err?
    }

    function PropagateFailure<U>(): Result<U, E>
      requires Err?
    {
      Err(error)
    }

    function Extract(): T
      requires Ok?
    {
      value
    }
  }

  /** A read through a raw pointer: it either stays inside the buffer or leaves it. */
  datatype Access<+T> = Fault | Value(value: T) {
    predicate IsFailure() {
      Fault?
    }

    function PropagateFailure<U>(): Access<U>
      requires Fault?
    {
      Fault
    }

    function Extract(): T
      requires Value?
    {
      value
    }
  }
}
