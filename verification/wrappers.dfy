/** Small value wrappers shared by the kernel models. */
module Wrappers {

  /** A value that may be absent: the model's stand-in for a null pointer or a failed lookup. */
  datatype Option<+T> = None | Some(value: T)
}
