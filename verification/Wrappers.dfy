/** A value that may be absent: null pointers, missing keys, empty slots. */
module Wrappers {
  datatype Option<+T> = None | Some(value: T)
}
