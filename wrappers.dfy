/** Small value wrappers shared by the other modules. */
module Wrappers {

  /** Python's `None` or a present value. */
  datatype Option<+T> = None | Some(value: T)

  /**
   * What a Python call does: it either returns a value or raises an
   * exception, of which only the message `str(e)` is observed.
   */
  datatype Outcome<+R> = Returned(value: R) | Raised(message: string)
}
