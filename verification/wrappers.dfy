/** Absent-or-present values, used for local-storage entries that may not exist. */
module Wrappers {

  /** `None` stands for a cache entry that is absent (the storage returns null). */
  datatype Option<+T> = None | Some(value: T) {

    /** The stored value, or `default` when the entry is absent. */
    function GetOr(default: T): (r: T)
      ensures Some? ==> r == value
      ensures None? ==> r == default
    {
      match this
      case Some(v) => v
      case None => default
    }
  }
}
