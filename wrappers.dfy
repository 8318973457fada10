/** Optional values: the driver's nullable callback pointer. */
module Wrappers {

  datatype Option<+T> = None | Some(value: T)
}
