/** Optional values, used where the programs return a second "found" result or a nil pointer. */
module Wrappers {
  datatype Option<+T> = None | Some(value: T)
}
