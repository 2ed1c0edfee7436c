/** Optional values, used for the pending search token of the room sagas. */
module Wrappers {

  datatype Option<+T> = None | Some(value: T)
}
