/** The error values the handlers return and how the transport answers
    them. Three typed errors carry a client-visible message and an
    internal note; any other Go error is only observable through its text. */
module Errors {

  datatype AppError =
    | ErrorBadRequest(message: string, internal: string)
    | ErrorStatusNotFound(message: string, internal: string)
    | ErrorInternalServerError(message: string, internal: string)
    | Plain(message: string)
  {
    /** The error's text: the `message` field for the three typed errors
        and the whole text of any other error. */
    function Error(): (text: string)
      ensures text == message
    {
      message
    }
  }

  const StatusOK := 200
  const StatusBadRequest := 400
  const StatusNotFound := 404
  const StatusInternalServerError := 500

  /** A status code and the error value written as the response body. */
  datatype Classified = Classified(status: int, body: AppError)

  /** The status and body a handler error is answered with. */
  function Classify(err: AppError): (r: Classified)
    ensures r.status == StatusBadRequest <==> err.ErrorBadRequest?
    ensures r.status == StatusNotFound <==> err.ErrorStatusNotFound?
    ensures r.status == StatusInternalServerError <==> err.ErrorInternalServerError? || err.Plain?
    ensures r.body.Error() == err.Error()
    ensures !r.body.Plain?
    ensures !err.Plain? ==> r.body == err
    ensures err.Plain? ==> r.body == ErrorInternalServerError(err.Error(), "")
  {
    match err
    case ErrorBadRequest(_, _) => Classified(StatusBadRequest, err)
    case ErrorStatusNotFound(_, _) => Classified(StatusNotFound, err)
    case ErrorInternalServerError(_, _) => Classified(StatusInternalServerError, err)
    case Plain(_) => Classified(StatusInternalServerError, ErrorInternalServerError(err.Error(), ""))
  }

  /** The "not found" error for the request URL path `url`. */
  function NotFound(url: string): (e: AppError)
    ensures e.Error() == "not found"
    ensures e.ErrorStatusNotFound? && e.internal == "url: " + url + " not found"
    ensures Classify(e) == Classified(StatusNotFound, e)
  {
    ErrorStatusNotFound("not found", "url: " + url + " not found")
  }

  /** Wrap an error as an internal server error, keeping its text internal. */
  function InternalServerError(err: AppError): (e: AppError)
    ensures e.Error() == "internal server error"
    ensures e.ErrorInternalServerError? && e.internal == err.Error()
    ensures Classify(e) == Classified(StatusInternalServerError, e)
  {
    ErrorInternalServerError("internal server error", err.Error())
  }

  /** Report a client error: the error is handed back as it is, so it is
      answered exactly as the original error would be. */
  function BadRequest(err: AppError): (e: AppError)
    ensures Classify(e) == Classify(err)
    ensures e.Error() == err.Error()
  {
    err
  }

  /** A plain error reported as a bad request is answered 500, not 400,
      with the error's own text as the body message. */
  lemma BadRequestOfPlainIsInternal(msg: string)
    ensures Classify(BadRequest(Plain(msg))).status == StatusInternalServerError
    ensures Classify(BadRequest(Plain(msg))).body == ErrorInternalServerError(msg, "")
  {
  }
}
