/**
 * The error catalogue: a response is a status and a payload of exactly two
 * keys, a machine-readable `error` code and a human `description`. Each of
 * the twelve named factories fixes a code, a status and a default
 * description that a caller-supplied description replaces.
 */
module ErrorFactory {
  import opened Wrappers

  /** A JSON response: its HTTP status and its (flat, string-valued) payload. */
  datatype Response = Response(status: int, payload: map<string, string>)

  /** create(error, description, status) */
  function Create(error: string, description: string, status: int): (r: Response)
    ensures r.status == status
    ensures r.payload.Keys == {"error", "description"}
    ensures r.payload["error"] == error && r.payload["description"] == description
  {
    Response(status, map["error" := error, "description" := description])
  }

  /** The conditions the named factories stand for, one per factory. */
  datatype Condition =
    | ServerError
    | Unauthorised
    | AccessTokenExpired
    | AccessTokenRevoked
    | InsufficientScopes
    | Forbidden
    | BadRequest
    | MethodNotAllowed
    | RateLimitExceeded
    | NotFound
    | Conflict
    | UnsupportedApiVersion

  function Code(c: Condition): string {
    match c
    case ServerError => "server.error"
    case Unauthorised => "client.unauthenticated"
    case AccessTokenExpired => "client.access_token_expired"
    case AccessTokenRevoked => "client.access_token_revoked"
    case InsufficientScopes => "client.insufficient_scopes"
    case Forbidden => "client.forbidden"
    case BadRequest => "client.endpoints.invalid-request"
    case MethodNotAllowed => "client.endpoints.invalid-method"
    case RateLimitExceeded => "client.rate_limit_exceeded"
    case NotFound => "client.endpoints.not-found"
    case Conflict => "client.endpoints.conflict"
    case UnsupportedApiVersion => "client.unsupported_api_version"
  }

  /** The HTTP status of each condition. */
  function Status(c: Condition): (s: int)
    ensures 400 <= s <= 599
    ensures s >= 500 <==> c == ServerError
  {
    match c
    case ServerError => 500
    case Unauthorised => 401
    case AccessTokenExpired => 401
    case AccessTokenRevoked => 401
    case InsufficientScopes => 403
    case Forbidden => 403
    case BadRequest => 400
    case MethodNotAllowed => 405
    case RateLimitExceeded => 429
    case NotFound => 404
    case Conflict => 409
    case UnsupportedApiVersion => 400
  }

  const ServerErrorText: string := "Something went wrong. We've been notified of the error and you can try again shortly."
  const UnauthorisedText: string := "You are not authorized to access this resource."
  const AccessTokenExpiredText: string := "The provided access token has expired."
  const AccessTokenRevokedText: string := "The provided access token has been revoked."
  const PermissionDeniedText: string := "The provided access token does not have permission to perform the requested operation."
  const BadRequestText: string := "Your request was invalid. Please check the provided information and try again."
  const MethodNotAllowedText: string := "The requested endpoint exists, but does not support the requested HTTP verb."
  const RateLimitExceededText: string := "You have exceeded the allocated rate limit. Please try again shortly."
  const NotFoundText: string := "The requested resource does not exist."
  const ConflictText: string := "Your request was valid, however a similar operation is in-progress. Please try again shortly."
  const UnsupportedApiVersionText: string := "The requested API version is not supported."

  /** The text a factory uses when its description is null; forbidden and insufficientScopes share one. */
  function DefaultDescription(c: Condition): (d: string)
    ensures |d| > 0
  {
    match c
    case ServerError => ServerErrorText
    case Unauthorised => UnauthorisedText
    case AccessTokenExpired => AccessTokenExpiredText
    case AccessTokenRevoked => AccessTokenRevokedText
    case InsufficientScopes => PermissionDeniedText
    case Forbidden => PermissionDeniedText
    case BadRequest => BadRequestText
    case MethodNotAllowed => MethodNotAllowedText
    case RateLimitExceeded => RateLimitExceededText
    case NotFound => NotFoundText
    case Conflict => ConflictText
    case UnsupportedApiVersion => UnsupportedApiVersionText
  }

  /**
   * The named factories (serverError(), unauthorised(), ...): the condition's
   * code and status, and the given description or, for null, the default.
   */
  function Named(c: Condition, description: Option<string>): (r: Response)
    ensures r.status == Status(c)
    ensures r.payload.Keys == {"error", "description"}
    ensures r.payload["error"] == Code(c)
    ensures description.Some? ==> r.payload["description"] == description.value
    ensures description.None? ==> r.payload["description"] == DefaultDescription(c) != ""
  {
    Create(Code(c), description.GetOr(DefaultDescription(c)), Status(c))
  }

  /** No two factories share a code, so a client can tell every condition apart. */
  lemma CodesAreDistinct(c1: Condition, c2: Condition)
    ensures Code(c1) == Code(c2) <==> c1 == c2
  {
  }

  /** forbidden and insufficientScopes share status and default text but not the code. */
  lemma ForbiddenAndInsufficientScopes()
    ensures Status(Forbidden) == Status(InsufficientScopes) == 403
    ensures DefaultDescription(Forbidden) == DefaultDescription(InsufficientScopes)
    ensures Code(Forbidden) != Code(InsufficientScopes)
  {
    CodesAreDistinct(Forbidden, InsufficientScopes);
  }
}
