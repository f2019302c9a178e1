/** Optional values and the outcome of code that may throw. */
module Wrappers {

  /** A value that may be missing (JavaScript `undefined` where the source's type is optional). */
  datatype Option<+T> = None | Some(value: T) {
    function GetOr(default: T): T {
      match this
      case Some(v) => v
      case None => default
    }

    /** `a ?? b` on optional values. */
    function OrElse(other: Option<T>): Option<T> {
      match this
      case Some(_) => this
      case None => other
    }
  }

  /** The outcome of source code that can throw: `TypeError` stands for the runtime
      `TypeError` JavaScript raises (destructuring `undefined`, calling a missing method). */
  datatype Result<+T> = Ok(value: T) | TypeError
}
