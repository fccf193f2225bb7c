/** Optional values: the presence or absence of a component on an entity. */
module Wrappers {
  datatype Option<+T> = None | Some(value: T)
}
