/** Outcomes of the calls the pages make into the hosted store and the AI client.
    Every such call is abstract here: the caller passes in what it returned. */
module Wrappers {

  datatype Option<+T> = None | Some(value: T) {
    function GetOr(default: T): T {
      match this
      case Some(v) => v
      case None => default
    }
  }

  /** A call that produces a value, or fails with a message (a thrown error). */
  datatype Result<+T> = Ok(value: T) | Err(message: string)

  /** A store write whose only outcome is whether `error` was set. */
  datatype Status = Success | Failure(message: string)
}
