/** Optional values (Java's nullable references, Python's None) and results
    that stand for a value or a thrown RuntimeException's message. */
module Wrappers {

  datatype Option<+T> = None | Some(value: T) {
    /** The value, or `default` when absent. */
    function GetOr(default: T): T {
      match this
      case Some(v) => v
      case None => default
    }
  }

  /** The outcome of a service call: a value, or the message of the
      RuntimeException the call throws. */
  datatype Result<+T> = Ok(value: T) | Err(message: string)
}
