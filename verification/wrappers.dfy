/** Optional values: `None` stands for a file that does not exist. */
module Wrappers {

  datatype Option<+T> = None | Some(value: T)
}
