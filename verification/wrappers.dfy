/** The optional-value datatype used for every field the parser may leave absent
    (Python's `None`). */
module Wrappers {

  datatype Option<+T> = None | Some(value: T)
}
