/** Datatypes shared by every component of the model. */
module Wrappers {

  /** SQL NULL, a nil pointer, a missing map entry or an absent row. */
  datatype Option<+T> = None | Some(value: T)
}
