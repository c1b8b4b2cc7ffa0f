/** The optional value the engine uses where the source returns `null`. */
module Wrappers {

  datatype Option<+T> = None | Some(value: T)
}
