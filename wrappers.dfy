/** Optional values: a missing JSON field, a page without text, a failed call. */
module Wrappers {
  datatype Option<+T> = None | Some(value: T)
}
