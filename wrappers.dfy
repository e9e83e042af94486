/** Optional values, used for the decoder's failure path. */
module Wrappers {
  datatype Option<+T> = None | Some(value: T)
}
