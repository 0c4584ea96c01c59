/** A value that may be absent: a null pointer or a failed lookup in the source. */
module Wrappers {
  datatype Option<T> = None | Some(value: T)
}
