/** Optional values, standing in for the nullable references of the source. */
module Wrappers {
  datatype Option<+T> = None | Some(value: T)
}
