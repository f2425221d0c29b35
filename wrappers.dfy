/** Optional values, used where the app has a Swift optional (`T?`). */
module Wrappers {

  datatype Option<+T> = None | Some(value: T)
}
