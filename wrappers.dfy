/** Option and Result value wrappers shared by the other modules. */
module Wrappers {

  /** An optional value: an absent JavaScript property or `undefined` is `None`. */
  datatype Option<+T> = None | Some(value: T) {
    function GetOr(default: T): T {
      match this
      case Some(v) => v
      case None => default
    }
  }

  /** The outcome of an operation that may throw. */
  datatype Result<+R, +E> = Success(value: R) | Failure(error: E)
}
