/** Optional values, used for the nil results and optional manifest fields of the Go code. */
module Wrappers {
  datatype Option<+T> = None | Some(value: T)
}
