/** Nullable values and the success-or-error outcome of a service call. */
module Wrappers {

  /** A C# nullable: `None` is `null`. */
  datatype Option<+T> = None | Some(value: T) {

    /** The value, or `default` when it is null. */
    function GetOr(default: T): T {
      match this
      case Some(v) => v
      case None => default
    }
  }

  /** The outcome of a service call: a value, or the exception it throws. */
  datatype Result<+T, +E> = Ok(value: T) | Err(error: E)
}
