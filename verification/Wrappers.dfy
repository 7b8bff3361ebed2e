/** A value that may be missing: an optional field, a label that may be absent. */
module Wrappers {

  datatype Option<+T> = None | Some(value: T)
}
