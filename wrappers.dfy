/** Optional values and results with an error, standing for TypeScript's
    `undefined` and for thrown errors. */
module Wrappers {

  /** `None` stands for `undefined`. */
  datatype Option<+T> = None | Some(value: T) {
    function GetOr(default: T): T {
      match this
      case Some(v) => v
      case None => default
    }
  }

  /** `Err` stands for an exception thrown by the operation. */
  datatype Result<+T, +E> = Ok(value: T) | Err(error: E)

  /** An operation that returns nothing and may throw. */
  datatype Outcome<+E> = Pass | Fail(error: E)
}
