/** Optional values: PHP's `null` / unset property next to a present one. */
module Wrappers {

  datatype Option<+T> = None | Some(value: T)
}
