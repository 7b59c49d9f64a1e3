/** The optional value used for a missing file, an absent column and a
    number that does not parse (JavaScript's `undefined` / `NaN`). */
module Wrappers {

  datatype Option<+T> = None | Some(value: T) {

    /** The value, or `default` when there is none (JavaScript's `x || default`). */
    function GetOr(default: T): T {
      match this
      case Some(v) => v
      case None => default
    }
  }
}
