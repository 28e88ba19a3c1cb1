/** Optional values, standing in for Java's nullable references and return values. */
module Wrappers {
  datatype Option<+T> = None | Some(value: T)
}
