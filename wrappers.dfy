/** Optional values, used where the source yields `undefined` or throws. */
module Wrappers {
  datatype Option<+T> = None | Some(value: T)
}
