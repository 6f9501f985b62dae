/** The optional value used for a field that may be absent from a request
    body or a JSON record (JavaScript's `undefined`/`null`). */
module Wrappers {

  datatype Option<+T> = None | Some(value: T) {

    /** Returns the value in Some, or `default` for None. */
    function GetOr(default: T): T {
      match this
      case Some(v) => v
      case None => default
    }
  }
}
