/** Values shared by the whole model: optional values, the exceptions the
    modelled code raises or catches, and the outcome of a Python call (it
    either returns a value or raises an exception). */
module Errors {

  datatype Option<+T> = None | Some(value: T)

  /** The claims mapping carried by a decoded identity token. */
  type Claims = map<string, string>

  /** The exception classes the modelled code distinguishes. `info` is the
      text `str(error)` gives; `pgcode` is the text of the database error code. */
  datatype Exception =
    | HttpError(status: int, message: string)           // tornado.web.HTTPError
    | ProgrammingError(info: string, pgcode: string)    // psycopg2.ProgrammingError
    | OtherDbError(info: string, pgcode: string)        // any other psycopg2.Error
    | DecodeError(info: string)                         // jwt.DecodeError
    | InvalidAlgorithmError(info: string)               // jwt.InvalidAlgorithmError
    | OtherError(info: string)                          // any other Exception
  {
    /** A data-layer failure: an instance of psycopg2.Error or of its subclass
        ProgrammingError. */
    predicate IsDbError() {
      ProgrammingError? || OtherDbError?
    }
  }

  /** What a call does: return a value or raise an exception. */
  datatype Outcome<+T> = Returned(value: T) | Raised(error: Exception)
  {
    /** The call ended in a transport-level failure with this status code. */
    predicate FailsWith(status: int) {
      Raised? && error.HttpError? && error.status == status
    }
  }
}
