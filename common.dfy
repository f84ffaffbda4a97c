/** Failure-compatible wrappers shared by every module of the model. */
module Common {

  /** A value that may be absent; `None` plays the role of Kotlin's `null`. */
  datatype Option<+T> = None | Some(value: T)

  /** The outcome of an operation that may throw: `Err` carries the exception. */
  datatype Result<+T, +E> = Ok(value: T) | Err(error: E) {
    /** The carried value, or `default` when the operation threw. */
    function GetOr(default: T): T {
      match this
      case Ok(v) => v
      case Err(_) => default
    }
  }
}
