/**
 * GlobalExceptionHandler: how an application exception becomes the client
 * response.  Each of the four kinds has its own HTTP status and error
 * label; the body is a two-entry map holding the label and the
 * exception's message.  A refused save belongs to no handler here.
 */
module GlobalExceptionHandler {
  import opened Common

  /** The status line and JSON body a handler produces. */
  datatype ErrorResponse = ErrorResponse(status: nat, body: map<string, string>)

  /** `@ResponseStatus` of each handler. */
  function Status(kind: ErrorKind): nat
  {
    match kind
    case ResourceConflict => 409
    case Unauthorized => 401
    case NotFound => 404
    case InvalidEmail => 400
  }

  /** The `"error"` entry each handler writes. */
  function ErrorLabel(kind: ErrorKind): string
  {
    match kind
    case ResourceConflict => "Resource Conflict"
    case Unauthorized => "Unauthorized"
    case NotFound => "Not Found"
    case InvalidEmail => "Invalid Email"
  }

  /** The four handler methods as one function; `None` where no handler of
      the application applies. */
  function Handle(f: Failure): (r: Option<ErrorResponse>)
    ensures r.Some? <==> f.ServiceError?
    ensures r.Some? ==>
      && r.value.status == Status(f.kind)
      && r.value.body.Keys == {"error", "message"}
      && r.value.body["error"] == ErrorLabel(f.kind)
      && r.value.body["message"] == f.message
  {
    match f
    case ServiceError(kind, message) =>
      Some(ErrorResponse(Status(kind), map["error" := ErrorLabel(kind), "message" := message]))
    case ConstraintViolation(_) => None
  }

  /** The kind a handled status stands for. */
  function KindOfStatus(status: nat): (k: Option<ErrorKind>)
    ensures k.Some? ==> Status(k.value) == status
  {
    if status == 409 then Some(ResourceConflict)
    else if status == 401 then Some(Unauthorized)
    else if status == 404 then Some(NotFound)
    else if status == 400 then Some(InvalidEmail)
    else None
  }

  /** The status alone tells the kind: the four statuses are pairwise
      distinct, and so are the four labels. */
  lemma StatusIdentifiesKind(kind: ErrorKind, other: ErrorKind)
    ensures KindOfStatus(Status(kind)) == Some(kind)
    ensures Status(kind) == Status(other) <==> kind == other
    ensures ErrorLabel(kind) == ErrorLabel(other) <==> kind == other
  {
  }

  /** A response reveals the exception it came from: status and message
      give back the kind and the message. */
  lemma ResponseDeterminesFailure(f: Failure, g: Failure)
    requires Handle(f).Some? && Handle(f) == Handle(g)
    ensures f == g
  {
    StatusIdentifiesKind(f.kind, g.kind);
  }
}
