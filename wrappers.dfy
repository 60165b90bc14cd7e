/** Optional values: an environment variable or override that may be unset. */
module Wrappers {

  datatype Option<+T> = None | Some(value: T)

}
