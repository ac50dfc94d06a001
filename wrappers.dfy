/** Optional values: a missing file, an unreadable directory, a missing JSON field. */
module Wrappers {

  datatype Option<+T> = None | Some(value: T)
}
