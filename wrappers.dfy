/** Optional values: a JavaScript field or state variable that may be `undefined` or `null`. */
module Wrappers {

  datatype Option<+T> = None | Some(value: T)
}
