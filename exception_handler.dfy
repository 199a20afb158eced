/** GlobalExceptionHandler (gift.common): how a thrown exception becomes an HTTP response. */
module GlobalExceptionHandler {
  import opened Common

  /** A response: its status, and the `ErrorResponse` message when there is a body. */
  datatype Response = Response(status: int, body: Nullable<Message>)

  const OK: int := 200
  const CREATED: int := 201
  const NO_CONTENT: int := 204
  const BAD_REQUEST: int := 400
  const UNAUTHORIZED: int := 401
  const FORBIDDEN: int := 403
  const NOT_FOUND: int := 404
  const INTERNAL_SERVER_ERROR: int := 500

  /** IllegalArgumentException is 400 and NoSuchElementException 404, both with the exception's
      message as body; Unauthorized is 401 and Forbidden 403, both without a body, so no message
      reaches the client. Any other exception has no handler and ends as Spring's 500. Each
      status names exactly one kind of exception. */
  function Handle(e: Error): (resp: Response)
    ensures resp.status == BAD_REQUEST <==> e.IllegalArgument?
    ensures resp.status == NOT_FOUND <==> e.NotFound?
    ensures resp.status == UNAUTHORIZED <==> e.Unauthorized?
    ensures resp.status == FORBIDDEN <==> e.Forbidden?
    ensures resp.status == INTERNAL_SERVER_ERROR <==> e.Internal?
    ensures resp.body.NonNull? <==> e.IllegalArgument? || e.NotFound?
    ensures resp.body.NonNull? ==> resp.body.value == e.message
  {
    match e
    case IllegalArgument(message) => Response(BAD_REQUEST, NonNull(message))
    case NotFound(message) => Response(NOT_FOUND, NonNull(message))
    case Unauthorized(_) => Response(UNAUTHORIZED, Null)
    case Forbidden(_) => Response(FORBIDDEN, Null)
    case Internal(_) => Response(INTERNAL_SERVER_ERROR, Null)
  }

  /** The status of an endpoint that answers `success` when its call returns normally. */
  function Status<T>(r: Result<T>, success: int): (status: int)
    requires 200 <= success < 300
    ensures 200 <= status < 300 <==> r.Ok?
    ensures r.Ok? ==> status == success
    ensures r.Err? ==> status == Handle(r.error).status
  {
    match r
    case Ok(_) => success
    case Err(e) => Handle(e).status
  }
}
