/** Small value wrappers shared by the model. */
module Outcomes {

  /** A value that may be absent: a missing dictionary key, Python's `None`. */
  datatype Option<+T> = None | Some(value: T) {
    function GetOr(default: T): T {
      match this
      case Some(v) => v
      case None => default
    }
  }

  /** What a remote collaborator does with one request: it answers, or it raises
      an exception whose message the caller sees. */
  datatype Reply<+T> = Answered(value: T) | Raised(message: string)

  /** The outcome of a pipeline run: a value, or the message of the error that
      aborted the run. */
  datatype Result<+T> = Success(value: T) | Failure(message: string)
}
