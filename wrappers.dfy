/** Failure-carrying wrappers shared by the whole model. */
module Wrappers {

  /** A value that may be absent: JavaScript's `undefined` in the decoder. */
  datatype Option<+T> = None | Some(value: T) {
    function GetOr(default: T): T {
      match this
      case Some(v) => v
      case None => default
    }
  }

  /** The outcome of an operation that the JavaScript code can abort with an exception. */
  datatype Result<+T, +E> = Ok(value: T) | Err(error: E)
}
