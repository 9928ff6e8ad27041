/** Optional values: `None` stands for JavaScript's `undefined` (an argument left out). */
module Wrappers {
  datatype Option<+T> = None | Some(value: T)
}
