/** Optional values, for the results the source signals with an error or a
    missing value. */
module Wrappers {
  datatype Option<+T> = None | Some(value: T)
}
