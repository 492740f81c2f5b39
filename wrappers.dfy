/** The optional values of the listing endpoint: a query parameter that may
    be missing, a directory read that may throw. */
module Wrappers {

  datatype Option<+T> = None | Some(value: T) {
    /** `??`: the value when present, the default otherwise. */
    function GetOr(default: T): (r: T)
      ensures Some? ==> r == value
      ensures None? ==> r == default
    {
      match this
      case Some(v) => v
      case None => default
    }
  }
}
