/** Failure-compatible wrappers shared by every module of the model.

    A JavaScript `throw` and a Rust `panic!`/`unwrap()` on a failure both end the
    current computation with a message; the model represents either as `Err`
    carrying that message. A JavaScript `undefined` and a Rust `None` are `None`.
 */
module Wrappers {

  datatype Option<+T> = None | Some(value: T) {

    /** The value, or `default` when there is none. */
    function GetOr(default: T): T {
      match this
      case Some(v) => v
      case None => default
    }
  }

  datatype Result<+T, +E> = Ok(value: T) | Err(error: E) {

    predicate IsFailure() {
      Err?
    }

    function PropagateFailure<U>(): Result<U, E>
      requires Err?
    {
      Err(error)
    }

    function Extract(): T
      requires Ok?
    {
      value
    }
  }
}
