/** Optional values: the model's stand-in for std::optional and for a nullable special. */
module Wrappers {

  datatype Option<+T> = None | Some(value: T)
}
