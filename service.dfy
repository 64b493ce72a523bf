/** One request through the whole service: RequestIDMiddleware, then
    CustomHeadersMiddleware, then DatabaseCheckMiddleware (the order of the
    MIDDLEWARE setting), then URL resolution and the view. */
module Service {
  import opened Wrappers
  import opened Timestamps
  import opened Externals
  import opened Models
  import opened Store
  import opened Http
  import opened Urls
  import opened Middleware
  import Views
  import Serializers

  /** Everything a request depends on besides the request and the store: the
      library calls, the DOMAIN_NAME setting, whether a Pub/Sub publish
      succeeds, the uuid4 a new user would get, the clock, the uuid4 drawn for
      the request id and whether the database probe passes. */
  datatype Environment = Environment(
    ext: Externals,
    hostname: Option<string>,
    delivered: bool,
    newUserId: UserId,
    now: Instant,
    requestId: string,
    databaseUp: bool)

  /** What URL resolution and the view make of a request. A path no pattern
      matches gets Django's own 404 page. */
  ghost function DispatchSpec(s: StoreState, req: Request, env: Environment): (Response, StoreState)
  {
    match Resolve(req.path)
    case None => (PlainResponse(404), s)
    case Some(HealthzView) => (Views.Healthz(req), s)
    case Some(PingView) => (Views.Ping(req), s)
    case Some(UserInfoView) => Views.UserInfoSpec(s, req, env.ext, env.now)
    case Some(CreateUserView) =>
      Views.CreateUserSpec(s, req, env.ext, env.hostname, env.delivered, env.newUserId, env.now)
    case Some(VerifyUserView) => Views.VerifyUserSpec(s, req, env.now)
    case Some(CatchAll) => (PlainResponse(404), s)
  }

  /** URL resolution and the view, over the store. */
  method Dispatch(store: AccountStore, req: Request, env: Environment) returns (resp: Response)
    requires store.Valid()
    modifies store
    ensures store.Valid()
    ensures (resp, store.State()) == DispatchSpec(old(store.State()), req, env)
  {
    var view := Resolve(req.path);
    match view
    case None => resp := PlainResponse(404);
    case Some(HealthzView) => resp := Views.Healthz(req);
    case Some(PingView) => resp := Views.Ping(req);
    case Some(UserInfoView) => resp := Views.UserInfo(store, req, env.ext, env.now);
    case Some(CreateUserView) =>
      resp := Views.CreateUser(store, req, env.ext, env.hostname, env.delivered, env.newUserId, env.now);
    case Some(VerifyUserView) => resp := Views.VerifyUser(store, req, env.now);
    case Some(CatchAll) => resp := PlainResponse(404);
  }

  /** The whole chain: the request is stamped, the probe gates the view, and
      whatever comes back gets the fixed headers. */
  ghost function HandleSpec(s: StoreState, req: Request, env: Environment): (Response, StoreState)
  {
    var stamped := req.(requestId := Some(env.requestId));
    if env.databaseUp then
      var (r, s') := DispatchSpec(s, stamped, env);
      (WithCustomHeaders(r), s')
    else
      (WithCustomHeaders(ProbeFailed(stamped).response), s)
  }

  /** The middleware chain and the view, over the store. */
  method Handle(store: AccountStore, req: Request, env: Environment) returns (resp: Response)
    requires store.Valid()
    modifies store
    ensures store.Valid()
    ensures (resp, store.State()) == HandleSpec(old(store.State()), req, env)
  {
    // RequestIDMiddleware
    var request := new RequestObject(req);
    AssignRequestId(request, env.requestId);
    // CustomHeadersMiddleware calls on; DatabaseCheckMiddleware probes
    var outcome: Outcome;
    if env.databaseUp {
      var downstream := Dispatch(store, request.request, env);
      outcome := DatabaseCheck(request.request, true, downstream);
    } else {
      outcome := ProbeFailed(request.request);
    }
    // CustomHeadersMiddleware on the way back
    var response := new ResponseObject(outcome.response);
    AddCustomHeaders(response);
    resp := response.Value();
  }

  /** With the database down every request, whatever its path, is answered 503
      with the three fixed headers, and nothing changes: the request id is set
      before the probe, so its failure branch never raises. */
  lemma HandleDatabaseDown(s: StoreState, req: Request, env: Environment)
    requires !env.databaseUp
    ensures var (r, s') := HandleSpec(s, req, env);
      && s' == s && r.status == 503 && r.body == NoBody
      && r.headers["Cache-Control"] == CACHE_CONTROL && r.headers["Pragma"] == PRAGMA
      && r.headers["X-Content-Type-Options"] == NOSNIFF
  {
    CustomHeadersOverwrite(PlainResponse(503));
  }

  /** With the database up the view's answer goes out unchanged but for the
      three fixed headers, and the view alone decides the new state; the view
      sees the request stamped with the drawn id. */
  lemma HandleDatabaseUp(s: StoreState, req: Request, env: Environment)
    requires env.databaseUp
    ensures var (r, s') := HandleSpec(s, req, env);
      var (v, sv) := DispatchSpec(s, req.(requestId := Some(env.requestId)), env);
      && s' == sv && r.status == v.status && r.body == v.body
      && (forall k :: k !in CUSTOM_HEADERS ==> (k in r.headers <==> k in v.headers)
                                               && (k in v.headers ==> r.headers[k] == v.headers[k]))
  {
    var (v, _) := DispatchSpec(s, req.(requestId := Some(env.requestId)), env);
    CustomHeadersOverwrite(v);
  }

  /** Every response, whatever the path, method or state, carries the three
      fixed headers. */
  lemma HandleAddsHeaders(s: StoreState, req: Request, env: Environment)
    ensures var r := HandleSpec(s, req, env).0;
      && "Cache-Control" in r.headers && r.headers["Cache-Control"] == CACHE_CONTROL
      && "Pragma" in r.headers && r.headers["Pragma"] == PRAGMA
      && "X-Content-Type-Options" in r.headers && r.headers["X-Content-Type-Options"] == NOSNIFF
  {
    var stamped := req.(requestId := Some(env.requestId));
    if env.databaseUp {
      CustomHeadersOverwrite(DispatchSpec(s, stamped, env).0);
    } else {
      CustomHeadersOverwrite(ProbeFailed(stamped).response);
    }
  }

  /** A path other than the five named routes reaches no view: 404, nothing
      changes. */
  lemma HandleUnknownPath(s: StoreState, req: Request, env: Environment)
    requires req.path !in {"healthz", "ping", "v1/user/self", "v1/user", "v1/verify"}
    ensures var (r, s') := HandleSpec(s, req, env);
      s' == s && r.status == (if env.databaseUp then 404 else 503)
  {
    ResolveOtherPaths(req.path);
  }

  /** What every request keeps of the store: usernames stay unique and ids
      distinct, no user disappears, no verification record appears or vanishes
      (no live code creates one), a used record stays used and a verified user
      stays verified. */
  ghost predicate Preserved(s: StoreState, s': StoreState)
  {
    && ValidUsers(s'.users)
    && s.users.Keys <= s'.users.Keys
    && |s'.verifications| == |s.verifications|
    && (forall i :: 0 <= i < |s.verifications| && s.verifications[i].isUsed ==> s'.verifications[i].isUsed)
    && (forall k :: k in s.users && s.users[k].isVerified ==> s'.users[k].isVerified)
  }

  /** The store's invariants hold across any one request, whatever its path,
      method, body or credentials. */
  lemma HandleKeepsInvariants(s: StoreState, req: Request, env: Environment)
    requires ValidUsers(s.users)
    ensures Preserved(s, HandleSpec(s, req, env).1)
  {
    if env.databaseUp {
      DispatchKeepsInvariants(s, req.(requestId := Some(env.requestId)), env);
    }
  }

  /** Each view keeps the store's invariants. */
  lemma DispatchKeepsInvariants(s: StoreState, req: Request, env: Environment)
    requires ValidUsers(s.users)
    ensures Preserved(s, DispatchSpec(s, req, env).1)
  {
    match Resolve(req.path)
    case None =>
    case Some(HealthzView) =>
    case Some(PingView) =>
    case Some(UserInfoView) => UserInfoKeepsInvariants(s, req, env);
    case Some(CreateUserView) => CreateUserKeepsInvariants(s, req, env);
    case Some(VerifyUserView) => Views.VerifyUserMonotonic(s, req, env.now);
    case Some(CatchAll) =>
  }

  /** user_info writes only the authenticated user's own row, under the same
      username and id. */
  lemma UserInfoKeepsInvariants(s: StoreState, req: Request, env: Environment)
    requires ValidUsers(s.users)
    ensures Preserved(s, Views.UserInfoSpec(s, req, env.ext, env.now).1)
  {
    Views.UserInfoWrites(s, req, env.ext, env.now);
    var a := Views.Authenticate(req, s.users, env.ext);
    if a.Authorized? && req.httpMethod == "PUT" {
      Views.AuthorizedIsStored(req, s.users, env.ext);
      Views.UpdateSelfWrites(s, req, env.ext, env.now, a.user);
    }
  }

  /** create_user only ever adds a user under a username not yet stored, with
      an id not yet taken, so the constraints keep holding; it touches no
      existing row and creates no verification record. */
  lemma CreateUserKeepsInvariants(s: StoreState, req: Request, env: Environment)
    requires ValidUsers(s.users)
    ensures var s' := Views.CreateUserSpec(s, req, env.ext, env.hostname, env.delivered, env.newUserId, env.now).1;
      && ValidUsers(s'.users) && s'.verifications == s.verifications
      && s.users.Keys <= s'.users.Keys && forall k :: k in s.users ==> s'.users[k] == s.users[k]
  {
    var json := env.ext.jsonLoads(req.body);
    if req.httpMethod != "POST" || json.None? || !json.value.JObj? {
      Views.CreateUserRefusesEarly(s, req, env.ext, env.hostname, env.delivered, env.newUserId, env.now);
    } else if Views.ExistingUser(s.users, json.value.fields).Some? {
      Views.CreateUserExisting(s, req, env.ext, env.hostname, env.delivered, env.newUserId, env.now);
    } else {
      NewUserKeepsInvariants(s, req, env);
    }
  }

  /** The branch of create_user that inserts a user. */
  lemma NewUserKeepsInvariants(s: StoreState, req: Request, env: Environment)
    requires ValidUsers(s.users)
    requires req.httpMethod == "POST" && env.ext.jsonLoads(req.body).Some? && env.ext.jsonLoads(req.body).value.JObj?
    requires Views.ExistingUser(s.users, env.ext.jsonLoads(req.body).value.fields).None?
    ensures var s' := Views.CreateUserSpec(s, req, env.ext, env.hostname, env.delivered, env.newUserId, env.now).1;
      && ValidUsers(s'.users) && s'.verifications == s.verifications
      && s.users.Keys <= s'.users.Keys && forall k :: k in s.users ==> s'.users[k] == s.users[k]
  {
    Views.CreateUserNew(s, req, env.ext, env.hostname, env.delivered, env.newUserId, env.now);
    var v := Serializers.ValidateCreate(env.ext.jsonLoads(req.body).value.fields, s.users, env.ext);
    if v.Some? && Serializers.CreateFromValidated(s.users, env.ext, v.value, env.newUserId, env.now).Ok? {
      var u := Serializers.CreateFromValidated(s.users, env.ext, v.value, env.newUserId, env.now).value;
      var (password, extra) := Serializers.CreateArguments(v.value);
      CreateUserRecordResult(s.users, env.ext, v.value.username, password, extra, env.newUserId, env.now);
      InsertKeepsValid(s.users, u);
    }
  }
}
