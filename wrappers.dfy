/** Optional values: a field that may be absent, a link that may not be opened. */
module Wrappers {
  datatype Option<+T> = None | Some(value: T)
}
