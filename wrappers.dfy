/** Failure-compatible helper datatypes shared by every module of the model. */
module Wrappers {

  /** An optional value: the model's stand-in for a Go nil pointer or an absent map entry. */
  datatype Option<+T> = None | Some(value: T)

  /** A value or an error: the model's stand-in for Go's `(T, error)` result pairs. */
  datatype Result<+T, +E> = Ok(value: T) | Err(error: E) {
    predicate IsFailure() { Err? }

    function PropagateFailure<U>(): Result<U, E>
      requires Err?
    {
      Err(error)
    }

    function Extract(): T
      requires Ok?
    {
      value
    }
  }
}
