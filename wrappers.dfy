/** Optional values: a mining reward has no sender, and `isValidChain` can return `undefined`. */
module Wrappers {

  datatype Option<+T> = None | Some(value: T)
}
