/** Optional values. `None` stands for Java's `null` and for an empty `Optional`. */
module Wrappers {

  datatype Option<+T> = None | Some(value: T)
}
