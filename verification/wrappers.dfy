/** Optional values and fallible results, standing in for the `undefined`
    values and thrown `Error`s of the application. */
module Wrappers {

  /** A value that may be absent (`undefined` or `null` in the application). */
  datatype Option<+T> = None | Some(value: T) {

    /** The wrapped value, or `default` when absent (the `x ?? default` idiom). */
    function GetOr(default: T): T {
      match this
      case Some(v) => v
      case None => default
    }
  }

  /** Either a value or the message of the `Error` the application throws. */
  datatype Result<+T> = Ok(value: T) | Err(message: string)
}
