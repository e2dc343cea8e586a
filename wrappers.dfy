/** Optional values: the Python `None` of a search node's action and parent,
    and the failure of a conversion that Python reports by raising. */
module Wrappers {

  datatype Option<+T> = None | Some(value: T)
}
