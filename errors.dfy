/** The error kinds callable handlers report, and the catch blocks that
    decide what a caller finally sees. */
module Errors {

  datatype ErrorCode =
    | Unauthenticated
    | PermissionDenied
    | InvalidArgument
    | NotFound
    | FailedPrecondition
    | Internal

  datatype HttpsError = HttpsError(code: ErrorCode, message: string)

  /** What the `try` block of a handler can throw: an HttpsError raised by a
      guard, or a schema (input validation) error with its issue messages. */
  datatype Fault = Raised(error: HttpsError) | SchemaError(issues: seq<string>)

  /** The shared catch block: a schema error becomes invalid-argument with the
      handler's prefix; anything else, including an HttpsError a guard raised
      inside the same `try`, is replaced by an internal error. */
  function Rethrow(f: Fault, schemaPrefix: string, internalMessage: string): (e: HttpsError)
    ensures e.code == InvalidArgument <==> f.SchemaError?
    ensures e.code == Internal <==> f.Raised?
    ensures f.Raised? ==> e.message == internalMessage
  {
    match f
    case SchemaError(_) => HttpsError(InvalidArgument, schemaPrefix)
    case Raised(_) => HttpsError(Internal, internalMessage)
  }
}
