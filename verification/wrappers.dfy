/** Failure-compatible optional values, used wherever the source throws or returns null. */
module Wrappers {

  datatype Option<+T> = None | Some(value: T)
}
