/** Optional values: a form field or an uploaded file that may be absent. */
module Wrappers {

  datatype Option<+T> = None | Some(value: T)
}
