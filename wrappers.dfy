/** A value that may be absent: a nil Go map, or an insertion that marks no node. */
module Wrappers {
  datatype Option<T> = None | Some(value: T)
}
