/** Optional values: a nullable reference of the source, or a parse that can fail. */
module Wrappers {

  datatype Option<+T> = None | Some(value: T)
}
