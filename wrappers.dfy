/** Failure-compatible wrappers shared by the loader and the token conversions. */
module Wrappers {

  /** A conversion that may fail (Python's int()/float() raising ValueError). */
  datatype Option<+T> = None | Some(value: T)

  /** The loader's outcome: a value, or the index of the first line the loader
      could not convert (where the source raises ValueError and stops). */
  datatype Result<+T> = Ok(value: T) | Err(line: nat) {

    predicate IsFailure() {
      Err?
    }

    function PropagateFailure<U>(): Result<U>
      requires Err?
    {
      Err(line)
    }

    function Extract(): T
      requires Ok?
    {
      value
    }
  }
}
