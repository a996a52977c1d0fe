/** Optional values: the model's stand-in for JavaScript's `null` results
    (a missing attribute, an element that `querySelector` did not find,
    a cancelled `prompt`). */
module Wrappers {

  datatype Option<+T> = None | Some(value: T)
}
