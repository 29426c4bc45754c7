/** Optional values: a file-system lookup either finds an entry or does not. */
module Wrappers {

  datatype Option<+T> = None | Some(value: T)
}
