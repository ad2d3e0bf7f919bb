/** Optional values: the source's nil pointers, empty slices and missing records. */
module Wrappers {
  datatype Option<+T> = None | Some(value: T)
}
