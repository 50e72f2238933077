/** Optional values, the model of Swift's `T?`. */
module Wrappers {

  datatype Option<+T> = None | Some(value: T)
}
