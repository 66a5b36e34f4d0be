/**
 * The two terminal middlewares: the catch-all 404 for unmatched routes, and
 * the global error handler, an ordered chain of tests on the thrown value that
 * picks a status and a client-facing message and logs only the 500 cases.
 */
module ErrorController {
  import opened Wrappers
  import opened Errors
  import opened Http

  /** The class a thrown object is an instance of, among those the handler tests. */
  datatype ErrorClass =
    | StructErrorClass
    | BadRequestErrorClass
    | UnauthorizedErrorClass
    | ForbiddenErrorClass
    | NotFoundErrorClass
    | SyntaxErrorClass
    | OtherClass

  /**
   * A thrown JavaScript value, as far as the handler inspects it: an object
   * with its class, `message`, numeric `status` (if any), whether it has a
   * `body` property, and its `code` (if any); or a non-object (null,
   * undefined, a string, a number).
   */
  datatype ErrorValue =
    | ErrorObject(cls: ErrorClass, message: string, status: Option<int>, hasBody: bool, code: Option<string>)
    | NotAnObject

  /** The response the handler sends, and whether it wrote the error to the log first. */
  datatype Handled = Handled(response: Response, logged: bool)

  const InvalidJson := "Invalid JSON"
  const FailedToProcess := "Failed to process data"
  const InternalError := "Internal server error"

  /** Any request no router matched. */
  function DefaultNotFoundHandler(): (r: Response)
    ensures r.status == 404 && r.body == MessageBody("Not found")
  {
    Response(404, MessageBody("Not found"))
  }

  predicate IsMalformedJson(err: ErrorValue) {
    err.ErrorObject? && err.cls == SyntaxErrorClass && err.status == Some(400) && err.hasBody
  }

  predicate HasTruthyCode(err: ErrorValue) {
    err.ErrorObject? && TruthyString(err.code)
  }

  function Reply(status: int, message: string, logged: bool): Handled {
    Handled(Response(status, MessageBody(message)), logged)
  }

  function GlobalErrorHandler(err: ErrorValue): (h: Handled)
    ensures h.response.status in {400, 401, 403, 404, 500}
    ensures h.response.body.MessageBody?
    ensures h.logged <==> h.response.status == 500
  {
    if err.ErrorObject? && err.cls in {StructErrorClass, BadRequestErrorClass} then
      Reply(400, err.message, false)
    else if IsMalformedJson(err) then
      Reply(400, InvalidJson, false)
    else if HasTruthyCode(err) then
      Reply(500, FailedToProcess, true)
    else if err.ErrorObject? && err.cls == NotFoundErrorClass then
      Reply(404, err.message, false)
    else if err.ErrorObject? && err.cls == UnauthorizedErrorClass then
      Reply(401, err.message, false)
    else if err.ErrorObject? && err.cls == ForbiddenErrorClass then
      Reply(403, err.message, false)
    else
      Reply(500, InternalError, true)
  }

  /**
   * The order of the tests matters: a validation or bad-request error is 400
   * whatever else it carries, while a truthy `code` turns every other error,
   * the application's own classes included, into an unlogged-message 500.
   */
  lemma CodeShadowsLaterClasses(err: ErrorValue)
    requires HasTruthyCode(err)
    ensures err.cls in {StructErrorClass, BadRequestErrorClass} ==>
              GlobalErrorHandler(err) == Reply(400, err.message, false)
    ensures !(err.cls in {StructErrorClass, BadRequestErrorClass}) && !IsMalformedJson(err) ==>
              GlobalErrorHandler(err) == Reply(500, FailedToProcess, true)
  {
  }

  /**
   * Each arm of the handler, for any thrown value: validation and bad-request
   * errors keep their message under 400; the JSON parser's SyntaxError is 400
   * "Invalid JSON"; without a truthy `code`, the not-found, unauthorized and
   * forbidden classes keep their message under 404, 401 and 403; everything
   * else, a non-object included, is a logged 500 "Internal server error".
   */
  lemma HandlerArms(err: ErrorValue)
    ensures err.ErrorObject? && err.cls in {StructErrorClass, BadRequestErrorClass} ==>
              GlobalErrorHandler(err) == Reply(400, err.message, false)
    ensures IsMalformedJson(err) ==> GlobalErrorHandler(err) == Reply(400, InvalidJson, false)
    ensures err.NotAnObject? ==> GlobalErrorHandler(err) == Reply(500, InternalError, true)
    ensures err.ErrorObject? && !HasTruthyCode(err) ==>
              && (err.cls == NotFoundErrorClass ==> GlobalErrorHandler(err) == Reply(404, err.message, false))
              && (err.cls == UnauthorizedErrorClass ==> GlobalErrorHandler(err) == Reply(401, err.message, false))
              && (err.cls == ForbiddenErrorClass ==> GlobalErrorHandler(err) == Reply(403, err.message, false))
    ensures err.ErrorObject? && !HasTruthyCode(err) && !IsMalformedJson(err)
            && err.cls in {SyntaxErrorClass, OtherClass} ==>
              GlobalErrorHandler(err) == Reply(500, InternalError, true)
  {
  }

  /** The status each application error class stands for. */
  function StatusFor(kind: ErrorKind): int {
    match kind
    case BadRequest => 400
    case Unauthorized => 401
    case Forbidden => 403
    case NotFound => 404
  }

  function ClassOf(kind: ErrorKind): ErrorClass {
    match kind
    case BadRequest => BadRequestErrorClass
    case Unauthorized => UnauthorizedErrorClass
    case Forbidden => ForbiddenErrorClass
    case NotFound => NotFoundErrorClass
  }

  /** The JavaScript value a handler's throw amounts to. */
  function AsErrorValue(t: Thrown): ErrorValue {
    match t
    case StructError(m) => ErrorObject(StructErrorClass, m, None, false, None)
    case Raised(e) => ErrorObject(ClassOf(e.kind), e.message, None, false, None)
    case DbError(code, m) => ErrorObject(OtherClass, m, None, false, Some(code))
  }

  /**
   * What a client sees for each thing a handler throws: validation and
   * application errors keep their message under their class's status and are
   * not logged; a query-engine error is a logged 500 with a generic message.
   */
  lemma HandlesThrown(t: Thrown)
    ensures t.StructError? ==> GlobalErrorHandler(AsErrorValue(t)) == Reply(400, t.message, false)
    ensures t.Raised? ==>
              GlobalErrorHandler(AsErrorValue(t)) == Reply(StatusFor(t.error.kind), t.error.message, false)
    ensures t.DbError? ==>
              GlobalErrorHandler(AsErrorValue(t)) == Reply(500, if t.code != "" then FailedToProcess else InternalError, true)
  {
  }
}
