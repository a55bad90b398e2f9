/** Option and Outcome: the model's stand-ins for "not found" and for the
    exceptions raised by FC_ASSERT. */
module Wrappers {

  datatype Option<+T> = None | Some(value: T)

  /** Pass, or Fail with the message the source's assertion carries. */
  datatype Outcome = Pass | Fail(message: string)
}
