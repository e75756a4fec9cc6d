/** Small generic wrappers shared by the other modules. */
module Wrappers {
  datatype Option<T> = None | Some(value: T)

  /** For a routine with a defect: the behaviour as written, or the evidently intended one. */
  datatype Rule = AsWritten | Corrected
}
