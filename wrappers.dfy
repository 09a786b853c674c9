/** The nullable values of the system (`int?`, `string?`, `DateTime?`, a reference that may be null). */
module Wrappers {

  datatype Option<+T> = None | Some(value: T) {

    /** C#'s `??` operator: this value if present, otherwise `default`. */
    function GetOr(default: T): T {
      match this
      case Some(v) => v
      case None => default
    }

    /** C#'s `a ?? b` where both sides are nullable. */
    function OrElse(other: Option<T>): Option<T> {
      if Some? then this else other
    }
  }
}
