/** Optional values, used where the source returns "nothing" (an empty
    DataFrame, an empty dict, a lookup that finds no debt). */
module Wrappers {

  datatype Option<+T> = None | Some(value: T)
}
