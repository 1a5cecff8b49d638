/** Optional values: a missing store row, an absent photo URL, a number that parses to NaN. */
module Wrappers {

  datatype Option<+T> = None | Some(value: T) {

    /** The value held, or `default` when there is none. */
    function GetOr(default: T): (r: T)
      ensures Some? ==> r == value
      ensures None? ==> r == default
    {
      match this
      case Some(v) => v
      case None => default
    }
  }
}
