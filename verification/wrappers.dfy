/** The optional-value datatype used for the attributes a content item may
    lack and for settings that may be unset. */
module Wrappers {

  /** `None` stands for a missing attribute or a `None` setting. */
  datatype Option<+T> = None | Some(value: T) {

    /** The encapsulated value, or `default` when there is none. */
    function GetOr(default: T): T
    {
      match this
      case Some(v) => v
      case None => default
    }
  }
}
