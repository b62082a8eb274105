/** Optional values: Java's nullable references and null returns. */
module Wrappers {

  datatype Option<+T> = None | Some(value: T)

}
