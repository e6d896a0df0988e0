/** Optional values: a JSON field that may be missing, a state that may be unknown. */
module Wrappers {
  datatype Option<+T> = None | Some(value: T)
}
