/** Optional values: the `undefined` a lookup or an optional property may yield. */
module Wrappers {

  datatype Option<+T> = None | Some(value: T)
}
