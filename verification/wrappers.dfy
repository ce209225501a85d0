/** Success/failure carriers shared by the to-do list controller and the
    arithmetic helpers. A Python `raise` becomes an `Err`, a normal return
    an `Ok`. */
module Wrappers {

  /** An optional value: the list widget's current selection, or a parse
      that may fail. */
  datatype Option<+T> = None | Some(value: T)

  /** The outcome of an operation that either returns a value or raises. */
  datatype Result<+T, +E> = Ok(value: T) | Err(error: E)
}
