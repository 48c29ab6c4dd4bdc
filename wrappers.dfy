/** The optional-value and result datatypes shared by the other modules. */
module Wrappers {

  /** An optional value: `None` stands for JavaScript's `undefined`/`null` (or NaN, for numbers). */
  datatype Option<+T> = None | Some(value: T) {
    /** The wrapped value, or `default` when there is none (JavaScript's `??`). */
    function GetOr(default: T): (r: T)
      ensures Some? ==> r == value
      ensures None? ==> r == default
    {
      match this
      case Some(v) => v
      case None => default
    }
  }

  /** The outcome of a JavaScript expression that may throw. */
  datatype Result<+R, +E> = Success(value: R) | Failure(error: E)
}
