/** Option and Result values shared by every module. */
module Wrappers {

  datatype Option<+T> = None | Some(value: T)

  /** A failure-compatible result, usable with `:-` where the broker uses `?`. */
  datatype Result<+T, +E> = Ok(value: T) | Err(error: E) {
    predicate IsFailure() {
      Err?
    }

    function PropagateFailure<U>(): (r: Result<U, E>)
      requires Err?
    {
      Err(error)
    }

    function Extract(): T
      requires Ok?
    {
      value
    }
  }
}
