/** The service's three middleware classes: RequestIDMiddleware (stamps each
    request with an id), CustomHeadersMiddleware (writes three fixed headers
    into every response) and DatabaseCheckMiddleware (answers 503 when the
    database probe fails). The request and the response are objects the
    middleware change in place. */
module Middleware {
  import opened Wrappers
  import opened Http

  // ------------------------------------------------------- RequestIDMiddleware

  /** A request object travelling down the chain; RequestIDMiddleware sets its
      request_id attribute. */
  class RequestObject {
    var request: Request

    constructor(request: Request)
      ensures this.request == request
    {
      this.request := request;
    }
  }

  /** RequestIDMiddleware: `request.request_id = str(uuid.uuid4())` before the
      rest of the chain runs. `id` is the uuid4 drawn for this request. */
  method AssignRequestId(request: RequestObject, id: string)
    modifies request
    ensures request.request == old(request.request).(requestId := Some(id))
  {
    request.request := request.request.(requestId := Some(id));
  }

  // --------------------------------------------------- CustomHeadersMiddleware

  const CACHE_CONTROL := "no-cache, no-store, must-revalidate"
  const PRAGMA := "no-cache"
  const NOSNIFF := "nosniff"

  /** The headers CustomHeadersMiddleware writes. */
  const CUSTOM_HEADERS: set<string> := {"Cache-Control", "Pragma", "X-Content-Type-Options"}

  /** A response after CustomHeadersMiddleware's three assignments, in order. */
  function WithCustomHeaders(r: Response): Response
  {
    r.(headers := r.headers["Cache-Control" := CACHE_CONTROL]["Pragma" := PRAGMA]["X-Content-Type-Options" := NOSNIFF])
  }

  /** The three headers take their fixed values whatever they held before;
      the status, the body and every other header are kept; applying the
      middleware again changes nothing more. */
  lemma CustomHeadersOverwrite(r: Response)
    ensures var w := WithCustomHeaders(r);
      && w.status == r.status && w.body == r.body
      && "Cache-Control" in w.headers && w.headers["Cache-Control"] == CACHE_CONTROL
      && "Pragma" in w.headers && w.headers["Pragma"] == PRAGMA
      && "X-Content-Type-Options" in w.headers && w.headers["X-Content-Type-Options"] == NOSNIFF
      && (forall k :: k !in CUSTOM_HEADERS ==> (k in w.headers <==> k in r.headers)
                                               && (k in r.headers ==> w.headers[k] == r.headers[k]))
      && WithCustomHeaders(w) == w
  {
  }

  /** A response object whose headers can be assigned one at a time, as
      `response[name] = value` does. */
  class ResponseObject {
    var status: nat
    var headers: map<string, string>
    var body: Body

    constructor(r: Response)
      ensures Value() == r
    {
      status := r.status;
      headers := r.headers;
      body := r.body;
    }

    function Value(): Response
      reads this
    {
      Response(status, headers, body)
    }

    /** `response[name] = value`: sets the header, replacing any earlier value. */
    method SetHeader(name: string, value: string)
      modifies this
      ensures Value() == old(Value()).(headers := old(headers)[name := value])
    {
      headers := headers[name := value];
    }
  }

  /** CustomHeadersMiddleware, after the rest of the chain has answered. */
  method AddCustomHeaders(response: ResponseObject)
    modifies response
    ensures response.Value() == WithCustomHeaders(old(response.Value()))
  {
    response.SetHeader("Cache-Control", CACHE_CONTROL);
    response.SetHeader("Pragma", PRAGMA);
    response.SetHeader("X-Content-Type-Options", NOSNIFF);
  }

  // -------------------------------------------------- DatabaseCheckMiddleware

  /** What a middleware hands back: a response, or an exception that escapes it
      (Django then answers with its own error page). */
  datatype Outcome = Returned(response: Response) | Escaped

  /** DatabaseCheckMiddleware. `databaseUp` is whether `SELECT 1` runs without
      raising; `downstream` is the response the rest of the chain would give.
      When the probe raises, both except clauses log the request's request_id
      and answer 503, so a request without one makes the logging itself raise. */
  function DatabaseCheck(req: Request, databaseUp: bool, downstream: Response): Outcome
  {
    if databaseUp then Returned(downstream) else ProbeFailed(req)
  }

  /** DatabaseCheckMiddleware's two except clauses: log, then 503. */
  function ProbeFailed(req: Request): (r: Outcome)
    ensures r.Returned? <==> req.requestId.Some?
    ensures r.Returned? ==> r.response.status == 503
  {
    if req.requestId.Some? then Returned(PlainResponse(503)) else Escaped
  }

  /** A failed probe answers 503 without looking at what the rest of the chain
      would answer (the view never runs); a passed probe hands that answer on
      unchanged. */
  lemma DatabaseCheckOutcomes(req: Request, databaseUp: bool, downstream: Response, other: Response)
    requires req.requestId.Some?
    ensures databaseUp ==> DatabaseCheck(req, databaseUp, downstream) == Returned(downstream)
    ensures !databaseUp ==> DatabaseCheck(req, databaseUp, downstream) == DatabaseCheck(req, databaseUp, other)
                            && DatabaseCheck(req, databaseUp, downstream).response.status == 503
  {
  }
}
