/** Failure-compatible wrappers shared by the model. */
module Wrappers {

  /** A value that may be absent: an unset session slot, an action hook that did not fire. */
  datatype Option<+T> = None | Some(value: T)
}
