/** Optional values shared by the model. */
module Wrappers {

  /** A value that may be absent: a missing dictionary key, a file that does not exist. */
  datatype Option<+T> = None | Some(value: T)
}
