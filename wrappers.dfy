/** Optional values, used for the error paths of the log processor. */
module Wrappers {

  datatype Option<+T> = None | Some(value: T)
}
