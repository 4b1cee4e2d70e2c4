/** Option stands for the source's nullable references; Result for an
    operation that either produces a value or throws. */
module Wrappers {

  datatype Option<+T> = None | Some(value: T) {

    /** The value, or `default` when absent (C#'s `??`). */
    function GetOr(default: T): T {
      match this
      case Some(v) => v
      case None => default
    }
  }

  datatype Result<+R, +E> = Success(value: R) | Failure(error: E)

  /** string.IsNullOrEmpty on a nullable string. */
  predicate IsNullOrEmpty(s: Option<string>) {
    s == None || s == Some("")
  }
}
