/** Optional values: a Python None / a JavaScript null or undefined. */
module Wrappers {

  datatype Option<T> = None | Some(value: T)
}
