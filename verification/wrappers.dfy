/** Optional values: the model's stand-in for a null shared pointer. */
module Wrappers {
  datatype Option<+T> = None | Some(value: T)
}
