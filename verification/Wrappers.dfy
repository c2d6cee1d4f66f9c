/** Result types shared by every module: an absent value and a failed operation. */
module Wrappers {

  datatype Option<+T> = None | Some(value: T)

  /** `Try<T>` of stout: a value or an error. Error texts are not modelled. */
  datatype Try<+T> = Ok(value: T) | Error
}
