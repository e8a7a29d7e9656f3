/** Optional values: a request field that is missing from the request or
    explicitly null is `None`. */
module Wrappers {

  datatype Option<+T> = None | Some(value: T)
}
