/** Optional values: the model's rendering of Python's `None` and of pandas' missing cells. */
module Wrappers {

  datatype Option<+T> = None | Some(value: T)
}
