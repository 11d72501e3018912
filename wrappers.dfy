/** Optional values: the model's rendering of JavaScript's `undefined` for an absent field. */
module Wrappers {

  datatype Option<+T> = None | Some(value: T)
}
