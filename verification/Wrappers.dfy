/** Stock option and result types. Error texts are not modelled: every failure
    of one kind is one value. */
module Wrappers {
  datatype Option<+T> = None | Some(value: T)

  datatype Result<+T> = Ok(value: T) | Err
}
