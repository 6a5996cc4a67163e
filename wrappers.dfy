/** Optional values: a Ruby `nil` or a missing node is `None`. */
module Wrappers {

  datatype Option<+T> = None | Some(value: T)
}
