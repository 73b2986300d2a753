/** Optional values and outcomes that stand for the source's `undefined` and thrown errors. */
module Outcomes {

  datatype Option<+T> = None | Some(value: T)

  datatype Outcome<+T, +E> = Ok(value: T) | Raise(error: E) {

    predicate IsFailure() { Raise? }

    function PropagateFailure<U>(): Outcome<U, E>
      requires Raise?
    {
      Raise(error)
    }

    function Extract(): T
      requires Ok?
    {
      value
    }
  }
}
