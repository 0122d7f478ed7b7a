/** The optional-value datatype shared by every module of the model. */
module Wrappers {

  /** Python's `None`-or-value, as a datatype. */
  datatype Option<+T> = None | Some(value: T)
}
