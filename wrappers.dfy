/** Optional values and results that carry an error: the model's form for Python's
    `x or default`, `dict.get` and exceptions. */
module Wrappers {

  datatype Option<+T> = None | Some(value: T) {

    /** The carried value, or `default` when there is none. */
    function GetOr(default: T): T {
      match this
      case Some(v) => v
      case None => default
    }
  }

  /** A value, or the message of the exception that replaced it. */
  datatype Result<+T, +E> = Success(value: T) | Failure(error: E)
}
