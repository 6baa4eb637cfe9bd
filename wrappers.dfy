/** Optional values: Go's nil pointers and "ok" results. */
module Wrappers {

  datatype Option<+T> = None | Some(value: T)

}
