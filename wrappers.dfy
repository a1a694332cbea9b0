/** Optional values: a JavaScript argument or field that may be null, undefined or absent. */
module Wrappers {

  datatype Option<+T> = None | Some(value: T)
}
