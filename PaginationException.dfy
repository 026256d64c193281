/** The exception raised for bad pagination input, and its rendering as an HTTP response. */
module PaginationException {
  import ErrorFactory

  datatype PaginationException = PaginationException(message: string)

  /** Rendering: error code "pagination_error", the exception's message as description, status 400. */
  function Render(e: PaginationException): (r: ErrorFactory.Response)
    ensures r.status == 400
    ensures r.payload.Keys == {"error", "description"}
    ensures r.payload["error"] == "pagination_error"
    ensures r.payload["description"] == e.message
  {
    ErrorFactory.Create("pagination_error", e.message, 400)
  }

  /** Two exceptions render the same response exactly when they carry the same message. */
  lemma RenderIsInjective(e1: PaginationException, e2: PaginationException)
    ensures Render(e1) == Render(e2) <==> e1 == e2
  {
    if Render(e1) == Render(e2) {
      assert e1.message == Render(e1).payload["description"];
    }
  }
}
