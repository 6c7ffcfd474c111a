/** Optional values, used wherever the source has a value that may be missing
    (an absent dictionary key, a JavaScript `undefined`, a failed lookup). */
module Wrappers {

  datatype Option<+T> = None | Some(value: T)
}
