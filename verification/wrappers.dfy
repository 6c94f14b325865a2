/** The optional-value datatype shared by the other modules: a nullable reference
    or a `TryGetValue` that may fail is a `None`. */
module Wrappers {

  datatype Option<+T> = None | Some(value: T) {

    /** The wrapped value, or `default` when there is none. */
    function GetOr(default: T): T {
      match this
      case Some(v) => v
      case None => default
    }
  }
}
