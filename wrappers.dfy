/** A value or its absence: a pointer that may be null. */
module Wrappers {
  datatype Option<+T> = None | Some(value: T)
}
