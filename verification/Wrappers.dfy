/** A value that may be missing: a null pointer, or a name that is not there. */
module Wrappers {
  datatype Option<+T> = None | Some(value: T)
}
