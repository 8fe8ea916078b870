/** The optional-value datatype used wherever the source has a nullable or
    possibly-undefined value. */
module Wrappers {

  datatype Option<+T> = None | Some(value: T)
}
