/** The optional-value datatype used across the model for JavaScript values that
    may be `undefined` (a record field that is missing) or an absent result. */
module Wrappers {

  datatype Option<+T> = None | Some(value: T) {

    /** The value, or `default` when there is none. With `default` the empty
        string, as in every use here, this is JavaScript's `x || ''` on a string
        field: a missing value and `''` both give `''`. */
    function GetOr(default: T): T {
      match this
      case Some(v) => v
      case None => default
    }
  }
}
