/** Option and Result values used across the model in place of JavaScript's
    `undefined` and thrown exceptions. */
module Wrappers {

  datatype Option<T> = None | Some(value: T) {
    function GetOr(default: T): T {
      match this
      case Some(v) => v
      case None => default
    }
  }

  /** The outcome of a call that either returns a value or throws. */
  datatype Result<T> = Ok(value: T) | Throws(message: string)
}
