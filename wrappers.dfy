/** Ruby's `nil`-or-value, as used throughout the trackers. */
module Wrappers {

  datatype Option<+T> = None | Some(value: T) {

    /** Ruby's `value || default`: the default is taken only when the value is nil. */
    function GetOr(default: T): T {
      match this
      case Some(v) => v
      case None => default
    }
  }
}
