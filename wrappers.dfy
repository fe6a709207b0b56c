/** Optional values, used for the resume marker and for a request body read that can fail. */
module Wrappers {
  datatype Option<+T> = None | Some(value: T)
}
