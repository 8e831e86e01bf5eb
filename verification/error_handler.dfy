/** The application's error type and the Express error middleware that turns
    errors into JSON responses, plus the wrapper that forwards a handler's
    rejected promise to that middleware. */
module ErrorHandler {
  import opened Wrappers
  import opened Json
  import opened Http

  /** An `AppError` carries its own status; anything else thrown is an `Other`. */
  datatype Error =
    | AppError(statusCode: int, message: string, isOperational: bool)
    | Other(message: string)

  /** `new AppError(statusCode, message, isOperational?)`. */
  function MakeAppError(statusCode: int, message: string, isOperational: Option<bool>): (e: Error)
    ensures e.AppError? && e.statusCode == statusCode && e.message == message
    ensures isOperational.None? ==> e.isOperational
    ensures isOperational.Some? ==> e.isOperational == isOperational.value
  {
    AppError(statusCode, message, isOperational.GetOr(true))
  }

  /** `{ status: 'error', message }`. */
  function ErrorBody(message: string): Value {
    JObj(map["status" := JStr("error"), "message" := JStr(message)])
  }

  const InternalMessage: string := "Internal server error"

  /** `errorHandler`: an AppError answers with its own status and message;
      every other error answers 500 with a fixed message. */
  function HandleError(err: Error): (r: Response)
    ensures err.AppError? ==> r.status == err.statusCode
    ensures err.Other? ==> r.status == 500
    ensures r.body.JsonBody? && r.body.json.JObj? && r.body.json.fields.Keys == {"status", "message"}
    ensures r.body.json.fields["status"] == JStr("error")
    ensures r.body.json.fields["message"] == JStr(if err.AppError? then err.message else InternalMessage)
  {
    if err.AppError? then Response(err.statusCode, JsonBody(ErrorBody(err.message)))
    else Response(500, JsonBody(ErrorBody(InternalMessage)))
  }

  /** An unexpected error's own message never reaches the response. */
  lemma OtherErrorsAreOpaque(m1: string, m2: string)
    ensures HandleError(Other(m1)) == HandleError(Other(m2))
  {
  }

  /** A freshly made AppError comes back with exactly the status and message it was made with. */
  lemma AppErrorRoundTrip(statusCode: int, message: string, isOperational: Option<bool>)
    ensures var r := HandleError(MakeAppError(statusCode, message, isOperational));
      r.status == statusCode && r.body == JsonBody(ErrorBody(message))
  {
  }

  /** How a wrapped route handler ended. */
  datatype Run =
    | Settled           // returned a value, or a promise that fulfilled
    | Rejected(err: Error)  // returned a promise that rejected
    | Threw(err: Error)     // threw before returning

  /** What `asyncHandler`'s wrapper does with that ending. */
  datatype Forwarding =
    | Done                  // nothing more
    | NextWith(err: Error)  // `next(err)` via the promise's catch
    | Escapes(err: Error)   // the exception leaves the wrapper itself

  /** `Promise.resolve(fn(req, res, next)).catch(next)`. */
  function AsyncHandler(run: Run): (f: Forwarding)
    ensures f.NextWith? <==> run.Rejected?
    ensures run.Rejected? ==> f == NextWith(run.err)
    ensures run.Threw? ==> f == Escapes(run.err)
    ensures run.Settled? ==> f == Done
  {
    match run
    case Settled => Done
    case Rejected(e) => NextWith(e)
    case Threw(e) => Escapes(e)
  }
}
