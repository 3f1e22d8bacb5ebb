/** Optional values: `None` stands for the exceptions the modelled code raises. */
module Wrappers {
  datatype Option<+T> = None | Some(value: T)
}
