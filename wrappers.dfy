/** Failure-carrying values shared by every module of the model. */
module Wrappers {

  /** A value that may be absent (`null`/`undefined` in the source). */
  datatype Option<+T> = None | Some(value: T) {
    function GetOr(default: T): T {
      match this
      case Some(v) => v
      case None => default
    }
  }

  /** The outcome of an operation that may throw: a thrown `Error` is represented by its message,
      because the callers classify errors by testing substrings of `error.message`. */
  datatype Result<+T> = Ok(value: T) | Err(message: string)
}
