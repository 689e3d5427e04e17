/** Optional values: a missing row, an absent query parameter, a NULL column. */
module Wrappers {
  datatype Option<+T> = None | Some(value: T)
}
