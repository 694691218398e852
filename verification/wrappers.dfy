/** Optional values shared by the other modules. */
module Wrappers {

  /** A value that may be missing: a failed map lookup, a nil Go error. */
  datatype Option<+T> = None | Some(value: T)
}
