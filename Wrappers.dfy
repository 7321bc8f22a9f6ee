/** Optional values and the results of calls that may raise. */
module Wrappers {

  /** A value that may be absent: a dictionary key that is not set, or Python's None. */
  datatype Option<+T> = None | Some(value: T) {
    function GetOr(default: T): T {
      match this
      case Some(v) => v
      case None => default
    }
  }

  /** The outcome of a call that may raise: its value, or the text of the exception. */
  datatype Result<+T> = Ok(value: T) | Fail(msg: string)
}
