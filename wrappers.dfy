/** Option and Result datatypes shared by the other modules. */
module Wrappers {

  datatype Option<+T> = None | Some(value: T) {
    function GetOr(default: T): T {
      match this
      case Some(v) => v
      case None => default
    }
  }

  /** The result of a call that either returns a value or raises an error. */
  datatype Result<+R, +E> = Success(value: R) | Failure(error: E)

  /**
   * The truth value of an optional string under `if x:` or `if not x:`:
   * present and non-empty.
   */
  predicate IsSet(s: Option<string>) {
    s.Some? && s.value != ""
  }
}
