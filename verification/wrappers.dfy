/** Optional values, standing for JavaScript's `undefined` results and Python's `None`. */
module Wrappers {

  datatype Option<+T> = None | Some(value: T)
}
