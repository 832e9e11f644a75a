/** Option and Result values used for the source's `undefined`/`null` and thrown errors. */
module Wrappers {

  datatype Option<+T> = None | Some(value: T) {
    function GetOr(default: T): T {
      match this
      case Some(v) => v
      case None => default
    }
  }

  /** A settled computation: a value, or the `message` of the `Error` it threw. */
  datatype Result<+T> = Ok(value: T) | Err(message: string)
}
