/** Optional values, used for lookups that may find nothing and for request
    bodies that may fail to bind. */
module Wrappers {

  datatype Option<+T> = None | Some(value: T)

}
