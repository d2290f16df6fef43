/** The optional value used for every nullable cell and every failure that
    carries no further information. */
module Wrappers {

  datatype Option<+T> = None | Some(value: T) {

    /** The value if present, the given default otherwise (pandas' fillna). */
    function GetOr(default: T): T {
      match this
      case Some(v) => v
      case None => default
    }
  }
}
