/** Optional values: a field that may be null or absent in the source's records. */
module Wrappers {

  datatype Option<+T> = None | Some(value: T)
}
