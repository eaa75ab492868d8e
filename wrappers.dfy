/** The optional value the pipeline uses for "absent": a missing cell, a
    table that has not been computed yet, a call that fails. */
module Wrappers {

  datatype Option<+T> = None | Some(value: T) {
    function GetOr(default: T): T {
      match this
      case Some(v) => v
      case None => default
    }
  }
}
