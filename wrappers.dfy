/** Optional values, for the DOM reads and attributes that may be absent. */
module Wrappers {
  datatype Option<T> = None | Some(value: T)
}
