/** Optional values: a dictionary entry that may hold `None`, or a pull that may find the source exhausted. */
module Wrappers {
  datatype Option<+T> = None | Some(value: T)
}
