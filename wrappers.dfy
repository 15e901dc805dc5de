/** Optional values, used for Python's None and for JavaScript's null/undefined. */
module Wrappers {

  datatype Option<T> = None | Some(value: T) {

    function GetOr(default: T): T {
      match this
      case Some(v) => v
      case None => default
    }
  }
}
