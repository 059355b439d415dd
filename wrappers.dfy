/** The optional-value type used where the program reads `undefined` or a
    value that may be absent. */
module Wrappers {

  datatype Option<+T> = None | Some(value: T)
}
