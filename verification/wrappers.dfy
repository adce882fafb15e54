/** Optional values: a map lookup that may miss, a provider query that may yield nothing. */
module Wrappers {

  datatype Option<+T> = None | Some(value: T)
}
