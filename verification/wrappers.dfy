/** Optional values: a missing DOM attribute, a search that finds nothing. */
module Wrappers {
  datatype Option<+T> = None | Some(value: T)
}
