/** The parts of a Django request and response the service reads and writes. */
module Http {
  import opened Wrappers
  import opened JsonValues

  /** A request: its method, path (without its leading '/'), raw body, the parsed
      query string as (name, value) pairs in order, headers by their canonical
      names, and the request_id that RequestIDMiddleware attaches. */
  datatype Request = Request(
    httpMethod: string,
    path: string,
    body: string,
    query: seq<(string, string)>,
    headers: map<string, string>,
    requestId: Option<string>)

  datatype Body = NoBody | JsonBody(fields: map<string, Json>)

  datatype Response = Response(status: nat, headers: map<string, string>, body: Body)

  const TEXT_HTML := "text/html; charset=utf-8"
  const APPLICATION_JSON := "application/json"

  /** HttpResponse(status=...), HttpResponseBadRequest(status=...) and HttpResponse(status=204): no content. */
  function PlainResponse(status: nat): Response
  {
    Response(status, map["Content-Type" := TEXT_HTML], NoBody)
  }

  /** JsonResponse(data, status=...). */
  function JsonResponse(data: map<string, Json>, status: nat): Response
  {
    Response(status, map["Content-Type" := APPLICATION_JSON], JsonBody(data))
  }

  /** JsonResponse({'error': message}, status=...). */
  function JsonError(message: string, status: nat): Response
  {
    JsonResponse(map["error" := JStr(message)], status)
  }

  /** HttpResponseNotAllowed(permitted): status 405, the permitted methods in Allow. */
  function NotAllowed(allow: string): Response
  {
    Response(405, map["Content-Type" := TEXT_HTML, "Allow" := allow], NoBody)
  }

  /** `if request.body:`: the body is non-empty. */
  predicate HasBody(req: Request)
  {
    req.body != ""
  }

  /** `if request.GET:`: the query string holds at least one parameter. */
  predicate HasQuery(req: Request)
  {
    req.query != []
  }

  /** QueryDict.get(name): the last value given for name, if any. */
  function QueryGet(query: seq<(string, string)>, name: string): (r: Option<string>)
    ensures r.None? <==> forall i :: 0 <= i < |query| ==> query[i].0 != name
    ensures r.Some? ==> exists i :: 0 <= i < |query| && query[i] == (name, r.value)
                                   && forall j :: i < j < |query| ==> query[j].0 != name
  {
    if query == [] then None
    else if query[|query| - 1].0 == name then Some(query[|query| - 1].1)
    else
      var init := query[..|query| - 1];
      var r := QueryGet(init, name);
      if r.Some? then
        var i :| 0 <= i < |init| && init[i] == (name, r.value) && forall j :: i < j < |init| ==> init[j].0 != name;
        assert query[i] == (name, r.value);
        r
      else r
  }
}
