/** The Option type used for Java's null returns and for calls that may throw. */
module Wrappers {

  datatype Option<+T> = None | Some(value: T) {

    /** The held value, or `default` for None (a null read as an empty listing, for instance). */
    function GetOr(default: T): T {
      match this
      case Some(v) => v
      case None => default
    }
  }
}
