/** The two failure-compatible datatypes the other modules share. */
module Wrappers {

  /** A value that may be absent: the source's `Option`. */
  datatype Option<+T> = None | Some(value: T)

  /** A value or a refusal: the source's `Result`. Usable with `:-`. */
  datatype Result<+T, +E> = Ok(value: T) | Err(error: E) {
    predicate IsFailure() {
      Err?
    }

    function PropagateFailure<U>(): (r: Result<U, E>)
      requires Err?
    {
      Err(error)
    }

    function Extract(): T
      requires Ok?
    {
      value
    }
  }
}
