/**
 * The error response class: the same two-key payload as the factory, with
 * an optional context whose entries are merged in and override the defaults,
 * and twelve named constructors with fixed code, description and status.
 */
module ErrorResponse {
  import ErrorFactory
  import Wrappers

  type Response = ErrorFactory.Response
  type Condition = ErrorFactory.Condition

  /** The constructor: {error, description}, then (when the context is not empty) merged with the context. */
  function New(error: string, description: string, status: int, context: map<string, string>): (r: Response)
    ensures r.status == status
    ensures r.payload.Keys == {"error", "description"} + context.Keys
    ensures forall k :: k in context ==> r.payload[k] == context[k]
    ensures "error" !in context ==> r.payload["error"] == error
    ensures "description" !in context ==> r.payload["description"] == description
  {
    var data := map["error" := error, "description" := description];
    ErrorFactory.Response(status, if |context| != 0 then data + context else data)
  }

  /** With an empty context the payload is exactly {error, description}. */
  lemma EmptyContextGivesTwoKeys(error: string, description: string, status: int)
    ensures New(error, description, status, map[]) == ErrorFactory.Create(error, description, status)
  {
  }

  /** The descriptions of the named constructors. */
  const ServerErrorText: string := "Something went wrong. We've been notified of the error and you can try again shortly."
  const UnauthorisedText: string := "You are not authorized to access this resource."
  const AccessTokenExpiredText: string := "The provided access token has expired."
  const AccessTokenRevokedText: string := "The provided access token has been revoked."
  const PermissionDeniedText: string := "The provided access token does not have permission to perform the requested operation."
  const BadRequestText: string := "Your request was invalid. Please check the provided information and try again."
  const MethodNotAllowedText: string := "The requested endpoint exists, but does not support the requested HTTP verb."
  const RateLimitExceededText: string := "You have exceeded the allocated rate limit. Please try again shortly."
  const NotFoundText: string := "The requested resource does not exist."
  const ConflictText: string := "Your request was valid, however a similar operation is in-progress. Please try again shortly."
  const UnsupportedApiVersionText: string := "The requested API version is not supported."

  /** The constants of the named constructors (serverError(), unauthorized(), ...): code, description, status. */
  function Entry(c: Condition): (e: (string, string, int))
    ensures |e.0| > 0 && 400 <= e.2 <= 599
  {
    match c
    case ServerError =>
      ("server.error", ServerErrorText, 500)
    case Unauthorised =>
      ("client.unauthenticated", UnauthorisedText, 401)
    case AccessTokenExpired =>
      ("client.access_token_expired", AccessTokenExpiredText, 401)
    case AccessTokenRevoked =>
      ("client.access_token_revoked", AccessTokenRevokedText, 401)
    case InsufficientScopes =>
      ("client.insufficient_scopes", PermissionDeniedText, 403)
    case Forbidden =>
      ("client.forbidden", PermissionDeniedText, 403)
    case BadRequest =>
      ("client.endpoints.invalid-request", BadRequestText, 400)
    case MethodNotAllowed =>
      ("client.endpoints.invalid-method", MethodNotAllowedText, 405)
    case RateLimitExceeded =>
      ("client.rate_limit_exceeded", RateLimitExceededText, 429)
    case NotFound =>
      ("client.endpoints.not-found", NotFoundText, 404)
    case Conflict =>
      ("client.endpoints.conflict", ConflictText, 409)
    case UnsupportedApiVersion =>
      ("client.unsupported_api_version", UnsupportedApiVersionText, 400)
  }

  /** A named constructor: its own constants, merged with the context like any other response. */
  function Named(c: Condition, context: map<string, string>): (r: Response)
    ensures r.status == Entry(c).2
    ensures r.payload.Keys == {"error", "description"} + context.Keys
    ensures "error" !in context ==> r.payload["error"] == Entry(c).0
    ensures "description" !in context ==> r.payload["description"] == Entry(c).1
    ensures forall k :: k in context ==> r.payload[k] == context[k]
  {
    var e := Entry(c);
    New(e.0, e.1, e.2, context)
  }

  /**
   * The two catalogues agree: without context, every named constructor gives
   * the response of the factory for the same condition with its default text.
   */
  lemma AgreesWithErrorFactory(c: Condition)
    ensures Named(c, map[]) == ErrorFactory.Named(c, Wrappers.None)
  {
  }

  /** The status and code of each named constructor are those of the factory's catalogue. */
  lemma SameCatalogue(c: Condition)
    ensures Entry(c).0 == ErrorFactory.Code(c) && Entry(c).2 == ErrorFactory.Status(c)
  {
  }
}
