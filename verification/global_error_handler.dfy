/**
 * `globalErrorHandler`: the last Express middleware. It turns the error that
 * reached it into exactly one JSON `ErrorApiResponse` and never calls `next`.
 */
module ErrorMiddleware {
  import opened Common
  import opened Http
  import opened ApiResponse

  /** An `HttpError` as it reaches the handler; `statusCode` may be absent. */
  datatype HttpError = HttpError(statusCode: Option<int>, message: string, stack: Option<string>)

  /** The one response the handler emits. */
  datatype ErrorReply = ErrorReply(status: int, body: ErrorApiResponse)

  /** The runtime mode in which the stack trace is exposed. */
  const Development := "development"

  /** `createHttpError(status, message)` as forwarded by a failed stage; `trace` is its stack. */
  function Raise<C, B>(failure: Outcome<C, B>, trace: string): (e: HttpError)
    requires failure.Fail?
    ensures e.statusCode == Some(failure.status) && e.message == failure.message
    ensures e.stack == Some(trace)
  {
    HttpError(Some(failure.status), failure.message, Some(trace))
  }

  /** `err.statusCode || 500`: an absent or zero status becomes 500. */
  function StatusOf(err: HttpError): (s: int)
    ensures s != 0
    ensures err.statusCode.Some? && err.statusCode.value != 0 ==> s == err.statusCode.value
    ensures (err.statusCode.None? || err.statusCode == Some(0)) ==> s == INTERNAL_SERVER_ERROR
  {
    match err.statusCode
    case Some(c) => if c != 0 then c else INTERNAL_SERVER_ERROR
    case None => INTERNAL_SERVER_ERROR
  }

  /**
   * The handler: HTTP status and body status agree, the message passes through
   * unchanged, and the stack is exposed only in development mode.
   */
  function GlobalErrorHandler(err: HttpError, env: string): (reply: ErrorReply)
    ensures reply.status == reply.body.statusCode == StatusOf(err)
    ensures reply.body.message == err.message
    ensures env == Development ==> reply.body.errorStack == err.stack
    ensures env != Development ==> reply.body.errorStack.None?
  {
    var statusCode := StatusOf(err);
    ErrorReply(statusCode, ErrorResponse(statusCode, err.message, if env == Development then err.stack else None))
  }

  /** A stage failure keeps its status and message all the way to the client. */
  lemma FailureReachesClient<C, B>(failure: Outcome<C, B>, trace: string, env: string)
    requires failure.Fail? && failure.status != 0
    ensures var reply := GlobalErrorHandler(Raise(failure, trace), env);
            reply.status == failure.status && reply.body.statusCode == failure.status
            && reply.body.message == failure.message
            && (reply.body.errorStack.Some? <==> env == Development)
  {
  }
}
