/** Failure-compatible result type used by every operation of the minter model.
    A JavaScript `throw` in the source becomes an `Err` here. */
module Wrappers {

  /** An optional value; `None` plays the part of an omitted (`undefined`) argument. */
  datatype Option<+T> = None | Some(value: T) {

    /** The carried value, or `default` when the argument was omitted. */
    function GetOr(default: T): T {
      match this
      case Some(v) => v
      case None => default
    }
  }

  /** Either a value or the error the source would have thrown. */
  datatype Result<+T, +E> = Ok(value: T) | Err(error: E) {

    predicate IsFailure() {
      Err?
    }

    function PropagateFailure<U>(): Result<U, E>
      requires Err?
    {
      Err(error)
    }

    function Extract(): T
      requires Ok?
    {
      value
    }
  }
}
