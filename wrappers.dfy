/** An optional value: the model of a JavaScript field or result that may be missing. */
module Wrappers {
  datatype Option<+T> = None | Some(value: T) {
    /** The value when present, otherwise the given default. */
    function GetOr(default: T): (r: T)
      ensures Some? ==> r == value
      ensures None? ==> r == default
    {
      match this
      case Some(v) => v
      case None => default
    }
  }
}
