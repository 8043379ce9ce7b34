/** Optional values: a grade token that did not parse, a menu line that was refused. */
module Wrappers {
  datatype Option<+T> = None | Some(value: T)
}
