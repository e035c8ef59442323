/** Optional values, used for "no partition list" and "no occurrence". */
module Wrappers {

  datatype Option<+T> = None | Some(value: T)
}
