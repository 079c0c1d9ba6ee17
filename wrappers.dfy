/** Failure-carrying results, used wherever the source throws or reports a fatal error. */
module Wrappers {

  datatype Option<+T> = None | Some(value: T)

  /** `Fail` stands for a thrown exception or a call of Error::Fatal; `message` names the cause. */
  datatype Result<+T> = Ok(value: T) | Fail(message: string) {
    predicate IsFailure() { Fail? }
  }
}
