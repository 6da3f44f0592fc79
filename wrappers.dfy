/** Small result types shared by the whole model. */
module Wrappers {

  /** A value that may be absent. When a modelled call returns `None` where
      the program calls into a library, that call throws. */
  datatype Option<+T> = None | Some(value: T)

  /** The completion of a call that returns nothing: it either completes or
      throws an exception carrying `message`. */
  datatype Outcome = Pass | Fail(message: string)
}
