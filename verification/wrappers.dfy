/** Option, used wherever the modelled code can come back with nothing
    (a failed parse, a missing entry, a thrown exception). */
module Wrappers {

  datatype Option<+T> = None | Some(value: T) {

    /** The encapsulated value, or `default` when there is none. */
    function GetOr(default: T): T {
      match this
      case Some(v) => v
      case None => default
    }
  }
}
