/** Failure-compatible result types shared by every stage of the translator. */
module Wrappers {

  /** An optional value; models the source's `null` fields (`init`, `alternate`, ...). */
  datatype Option<+T> = None | Some(value: T)

  /** The outcome of a stage that can throw: `Err` carries what the source throws. */
  datatype Result<+T, +E> = Ok(value: T) | Err(error: E) {

    predicate IsFailure() {
      Err?
    }

    function PropagateFailure<U>(): Result<U, E>
      requires Err?
    {
      Err(error)
    }

    function Extract(): T
      requires Ok?
    {
      value
    }
  }
}
