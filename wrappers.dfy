/** Optional values: `null` / `undefined` in the server become `None`. */
module Wrappers {
  datatype Option<+T> = None | Some(value: T)
}
