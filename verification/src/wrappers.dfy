/** Optional values and results shared by every part of the model. */
module Wrappers {

  /** An optional value: `None` stands for a field that is absent, `null` or `undefined`. */
  datatype Option<+T> = None | Some(value: T) {

    /** The value, or `fallback` when there is none. */
    function GetOr(fallback: T): T {
      match this
      case Some(v) => v
      case None => fallback
    }
  }

  /** A computation that either produces a value or fails with a message. */
  datatype Result<+T> = Success(value: T) | Failure(message: string)
}
