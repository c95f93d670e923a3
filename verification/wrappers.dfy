/** Optional values, used where the modelled code can come back empty-handed. */
module Wrappers {

  datatype Option<+T> = None | Some(value: T)
}
