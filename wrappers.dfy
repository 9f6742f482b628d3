/** Optional values, standing for the `T | null` and `undefined` results of the source. */
module Wrappers {

  datatype Option<+T> = None | Some(value: T)
}
