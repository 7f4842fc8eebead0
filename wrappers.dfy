/** Optional values: `None` stands for JavaScript's `undefined` or `false` "not found" results. */
module Wrappers {

  datatype Option<+T> = None | Some(value: T)
}
