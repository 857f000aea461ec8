/** The application's error codes and the failure-carrying results that stand for a thrown CrewsException. */
module Exceptions {

  /** The ErrorCode values the recruitment core raises. */
  datatype ErrorCode = InvalidClosingDate | RecruitmentNotFound | AlreadyAnnounced

  /** A value, or the error code of the exception that replaced it. */
  datatype Result<T> = Ok(value: T) | Err(error: ErrorCode)

  /** The outcome of a void operation that may throw. */
  datatype Outcome = Pass | Fail(error: ErrorCode)
}
