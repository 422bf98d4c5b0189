/** The optional value used throughout the model for `T | undefined` / `T | null`. */
module Wrappers {
  datatype Option<+T> = None | Some(value: T) {
    /** JavaScript's `x ?? default`. */
    function GetOr(default: T): T {
      match this
      case Some(v) => v
      case None => default
    }
  }
}
