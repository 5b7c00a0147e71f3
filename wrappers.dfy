/** Optional values: Ruby's `nil` against a present value. */
module Wrappers {

  datatype Option<+T> = None | Some(value: T)
}
