/** Optional values: a JSON field that is absent or null, a lookup that finds nothing. */
module Wrappers {
  datatype Option<+T> = None | Some(value: T)
}
