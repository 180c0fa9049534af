/** Optional values, used wherever the source signals "no result" (a `false`
 *  return, `std::nullopt`, Python `None`). */
module Wrappers {
  datatype Option<+T> = None | Some(value: T)
}
