/** Small value wrappers shared by the whole model. */
module Wrappers {

  /** A value that may be absent: JavaScript's `null` / `undefined` where the code only asks "is it there". */
  datatype Option<+T> = None | Some(value: T)
}
