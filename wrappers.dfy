/** Optional values, standing for JSON fields that may be absent or not numeric. */
module Wrappers {

  datatype Option<+T> = None | Some(value: T)
}
