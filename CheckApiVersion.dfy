/**
 * The middleware that guards every versioned route: the request must carry an
 * X-API-VERSION header holding a valid version, otherwise the request is
 * answered with the unsupported-API-version error and never forwarded.
 */
module CheckApiVersion {
  import opened Wrappers
  import ApiVersion
  import ErrorFactory

  /** What the middleware does with a request. */
  datatype Outcome<R> = Rejected(response: ErrorFactory.Response) | Forwarded(result: R)

  /** The response for a missing or malformed header. */
  function Unsupported(): ErrorFactory.Response {
    ErrorFactory.Named(ErrorFactory.UnsupportedApiVersion, None)
  }

  /**
   * handle(): `header` is the value of the X-API-VERSION header, None when the
   * request has none; `next` is the rest of the pipeline.
   */
  function Handle<Q, R>(header: Option<string>, request: Q, next: Q -> R): (r: Outcome<R>)
    ensures r.Forwarded? <==> header.Some? && ApiVersion.Parse(header.value).Some?
    ensures r.Forwarded? ==> r.result == next(request)
    ensures r.Rejected? ==> r.response == Unsupported()
  {
    if header.None? then
      Rejected(Unsupported())
    else if ApiVersion.Parse(header.value).None? then
      Rejected(Unsupported())
    else
      Forwarded(next(request))
  }

  /** A request is forwarded exactly when its header is the rendering of some version. */
  lemma ForwardsExactlyVersions<Q, R>(header: string, request: Q, next: Q -> R)
    ensures Handle(Some(header), request, next).Forwarded? <==>
            exists v: ApiVersion.Version :: ApiVersion.Format(v) == header
  {
    if Handle(Some(header), request, next).Forwarded? {
      var v := ApiVersion.Parse(header).value;
      ApiVersion.ParseIsStrict(header, v);
    }
    if exists v: ApiVersion.Version :: ApiVersion.Format(v) == header {
      var v: ApiVersion.Version :| ApiVersion.Format(v) == header;
      ApiVersion.ParseIsStrict(header, v);
    }
  }

  /** The rejection is the factory's unsupported-API-version response: status 400. */
  lemma RejectionIsBadRequest()
    ensures Unsupported().status == 400
    ensures Unsupported().payload["error"] == "client.unsupported_api_version"
  {
  }
}
