/** Optional values, used for absent documents, unbound identifiers and query results. */
module Wrappers {

  datatype Option<+T> = None | Some(value: T)
}
