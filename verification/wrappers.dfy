/** Shared value types. */
module Wrappers {

  /** A value the source leaves as `None` until it is known. */
  datatype Option<+T> = None | Some(value: T)
}
