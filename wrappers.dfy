/** Option, the model's stand-in for Python's None. */
module Wrappers {

  datatype Option<+T> = None | Some(value: T) {

    /** The held value, or the given default when there is none. */
    function GetOr(default: T): T {
      match this
      case Some(v) => v
      case None => default
    }
  }
}
