/** Optional values, used for the source's `None` and for a lookup or call that raises. */
module Wrappers {

  datatype Option<+T> = None | Some(value: T)
}
