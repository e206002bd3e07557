/** Option, for values the source represents as None (SQL NULL, a missing row). */
module Wrappers {

  datatype Option<+T> = None | Some(value: T)
}
