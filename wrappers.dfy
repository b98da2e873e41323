/** Option and Result: `undefined` and thrown errors of the TypeScript source. */
module Wrappers {

  /** A value that JavaScript may leave `undefined`. */
  datatype Option<+T> = None | Some(value: T) {
    function GetOr(default: T): T {
      match this
      case Some(v) => v
      case None => default
    }
  }

  /** A computation that either returns a value or throws an `Error` with a message. */
  datatype Result<+T> = Ok(value: T) | Err(msg: string)
}
