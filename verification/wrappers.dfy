/**
  The optional-value datatype used throughout the model for JavaScript's
  `undefined` / `null` results and for optional record fields, and the result
  of an awaited call that may throw.
 */
module Wrappers {

  datatype Option<+T> = None | Some(value: T) {

    /** The value if present, otherwise `default` (JavaScript's `x ?? default`). */
    function GetOr(default: T): T {
      match this
      case Some(v) => v
      case None => default
    }
  }

  /** What an awaited call did: the value it resolved to, or the message of
      what it threw. */
  datatype Outcome<+T> = Returned(value: T) | Threw(message: string)
}
