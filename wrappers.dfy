/** Optional values: the model's stand-in for Swift optionals such as the
    result of parsing a price string. */
module Wrappers {

  datatype Option<+T> = None | Some(value: T)
}
