/** Optional values: a request parameter or body field that may be absent. */
module Wrappers {

  datatype Option<+T> = None | Some(value: T)
}
