/** Optional values, standing in for Go's nil-able pointers and error values. */
module Wrappers {

  datatype Option<+T> = None | Some(value: T)
}
