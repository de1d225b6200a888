/** The optional value used wherever the program returns `None` or looks a key up. */
module Wrappers {

  datatype Option<+T> = None | Some(value: T) {

    /** The value in a `Some`, or the given default for `None` (Python's `dict.get(k, default)`). */
    function GetOr(default: T): T {
      match this
      case Some(v) => v
      case None => default
    }
  }
}
