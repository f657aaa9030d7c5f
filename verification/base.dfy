/** Failure-compatible wrappers shared by every module of the model. */
module Base {

  /** A value that may be absent, as a Python `dict.get` without default. */
  datatype Option<+T> = None | Some(value: T) {
    function GetOr(default: T): T {
      match this
      case Some(v) => v
      case None => default
    }
  }

  /** The outcome of a call that can raise: `Err` carries the exception kind. */
  datatype Result<+T> = Ok(value: T) | Err(error: string)
}
