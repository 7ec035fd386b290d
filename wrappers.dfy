/** A value that may be absent: a pointer that may be NULL, a search that may find nothing. */
module Wrappers {
  datatype Option<+T> = None | Some(value: T)
}
