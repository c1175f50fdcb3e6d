/** Optional values: JavaScript's `undefined` next to a real value. */
module Wrappers {

  datatype Option<+T> = None | Some(value: T) {

    /** `this ?? default`: the value if there is one, otherwise `default`. */
    function GetOr(default: T): T
    {
      match this
      case Some(v) => v
      case None => default
    }
  }
}
