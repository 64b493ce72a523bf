/** The endpoint handlers: healthz, ping, create_user, user_info (with the
    Basic credential check get_user_from_credentials) and verify_user.
    Each handler's every exception path is resolved to the response its
    `except` clause returns. A handler that changes the store is a method over
    an AccountStore, specified by a function from the old snapshot to the
    response and the new snapshot; the properties are lemmas about those
    functions. */
module Views {
  import opened Wrappers
  import opened Text
  import opened Timestamps
  import opened JsonValues
  import opened Externals
  import opened Models
  import opened Serializers
  import opened Store
  import opened Http

  // ------------------------------------------------------------ healthz, ping

  /** The checks healthz and ping share: only GET, and neither a body nor a
      query string; `ok` is the response of a clean request. */
  function GetOnly(req: Request, ok: Response): Response
  {
    if req.httpMethod == "GET" then
      if HasBody(req) then PlainResponse(400)
      else if HasQuery(req) then PlainResponse(400)
      else ok
    else NotAllowed("GET")
  }

  /** healthz: 200 with no content when healthy. */
  function Healthz(req: Request): Response
  {
    GetOnly(req, PlainResponse(200))
  }

  /** ping: 200 with {"message": "pong"}. */
  function Ping(req: Request): Response
  {
    GetOnly(req, JsonResponse(map["message" := JStr("pong")], 200))
  }

  /** healthz answers 405 (Allow: GET) exactly to other methods, 400 exactly to a
      GET with a body or a query string, and 200 with no content otherwise. */
  lemma HealthzOutcomes(req: Request)
    ensures var r := Healthz(req);
      && (r.status == 405 <==> req.httpMethod != "GET")
      && (r.status == 405 ==> r.headers["Allow"] == "GET")
      && (r.status == 400 <==> req.httpMethod == "GET" && (HasBody(req) || HasQuery(req)))
      && (r.status == 200 <==> req.httpMethod == "GET" && !HasBody(req) && !HasQuery(req))
      && r.body == NoBody
  {
  }

  /** ping has the same outcomes; a clean GET answers {"message": "pong"}. */
  lemma PingOutcomes(req: Request)
    ensures var r := Ping(req);
      && (r.status == 405 <==> req.httpMethod != "GET")
      && (r.status == 405 ==> r.headers["Allow"] == "GET" && r.body == NoBody)
      && (r.status == 400 <==> req.httpMethod == "GET" && (HasBody(req) || HasQuery(req)))
      && (r.status == 400 ==> r.body == NoBody)
      && (r.status == 200 <==> req.httpMethod == "GET" && !HasBody(req) && !HasQuery(req))
      && (r.status == 200 ==> r.body == JsonBody(map["message" := JStr("pong")]))
  {
  }

  /** The body is looked at before the query string: a GET with a body is
      refused whatever its query string. */
  lemma BodyCheckedFirst(req: Request, query: seq<(string, string)>)
    requires req.httpMethod == "GET" && HasBody(req)
    ensures Healthz(req.(query := query)) == Healthz(req) == PlainResponse(400)
    ensures Ping(req.(query := query)) == Ping(req) == PlainResponse(400)
  {
  }

  // ----------------------------------------------------- Basic credentials

  /** What get_user_from_credentials yields: the user, a refusal with its
      message and status, or an exception it lets escape (undecodable base64 or
      UTF-8, or no ':' to split on). */
  datatype AuthOutcome =
    | Authorized(user: User)
    | Rejected(status: nat, message: string)
    | Raised

  const BASIC := "Basic "
  const NEED_AUTH_MSG := "Invalid Request, Need Authorization header"

  /** `auth_header` is present, non-empty and starts with "Basic ". */
  predicate HasBasicHeader(req: Request)
  {
    "Authorization" in req.headers && StartsWith(req.headers["Authorization"], BASIC)
  }

  /** The credentials a header carries, when it is a Basic header that decodes
      and holds a ':'. */
  function Credentials(req: Request, ext: Externals): Option<(string, string)>
  {
    if HasBasicHeader(req) then
      match ext.b64decode(req.headers["Authorization"][|BASIC|..])
      case None => None
      case Some(decoded) => SplitFirst(decoded, ':')
    else None
  }

  /** get_user_from_credentials. A header that does not decode or has no ':'
      raises out of the function. */
  function Authenticate(req: Request, users: map<string, User>, ext: Externals): AuthOutcome
  {
    if !HasBasicHeader(req) then Rejected(401, NEED_AUTH_MSG)
    else match Credentials(req, ext)
      case None => Raised
      case Some((username, password)) => CheckCredentials(users, ext, username, password)
  }

  /** The lookup by the raw username, the password check, then the verified flag. */
  function CheckCredentials(users: map<string, User>, ext: Externals, username: string, password: string): AuthOutcome
  {
    if username !in users then Rejected(401, "User: " + username + " not found.")
    else
      var u := users[username];
      if !CheckPassword(ext, password, u.password) then
        Rejected(401, "Authorisation failure for user: " + username)
      else if !u.isVerified then
        Rejected(403, "Email verification required to access this API. for user: " + username)
      else Authorized(u)
  }

  /** The credential check once the credentials are read: an unknown user
      gives 401; a wrong password 401; the right password of an unverified
      user 403 (the flag is only looked at after the password passes);
      otherwise the stored user. It never raises. */
  lemma CheckCredentialsOutcomes(users: map<string, User>, ext: Externals, username: string, password: string)
    ensures var a := CheckCredentials(users, ext, username, password);
      && !a.Raised?
      && (a.Authorized? <==> username in users && CheckPassword(ext, password, users[username].password)
                             && users[username].isVerified)
      && (a.Authorized? ==> a.user == users[username])
      && (a.Rejected? && a.status == 403 <==>
            username in users && CheckPassword(ext, password, users[username].password) && !users[username].isVerified)
      && (a.Rejected? && a.status == 401 <==>
            username !in users || !CheckPassword(ext, password, users[username].password))
  {
  }

  /** The steps of get_user_from_credentials in order: no Basic header gives
      401 with its own message, a header whose credentials cannot be read
      raises, and readable credentials go to the lookup. */
  lemma AuthenticateOutcomes(req: Request, users: map<string, User>, ext: Externals)
    ensures var a := Authenticate(req, users, ext);
      var c := Credentials(req, ext);
      && (a == Rejected(401, NEED_AUTH_MSG) <==> !HasBasicHeader(req))
      && (a.Raised? <==> HasBasicHeader(req) && c.None?)
      && (c.Some? ==> HasBasicHeader(req) && a == CheckCredentials(users, ext, c.value.0, c.value.1))
  {
    var c := Credentials(req, ext);
    if c.Some? {
      var username := c.value.0;
      assert "User: " + username + " not found." != NEED_AUTH_MSG by {
        assert ("User: " + username + " not found.")[0] == 'U';
      }
      assert "Authorisation failure for user: " + username != NEED_AUTH_MSG by {
        assert ("Authorisation failure for user: " + username)[1] == 'u';
      }
    }
  }

  /** An authorized caller is a stored, verified user, filed under its own
      username, whose password the request carries. */
  lemma AuthorizedIsStored(req: Request, users: map<string, User>, ext: Externals)
    requires ValidUsers(users) && Authenticate(req, users, ext).Authorized?
    ensures var u := Authenticate(req, users, ext).user;
      && u.username in users && users[u.username] == u && u.isVerified
      && Credentials(req, ext).Some? && CheckPassword(ext, Credentials(req, ext).value.1, u.password)
  {
    AuthenticateOutcomes(req, users, ext);
    var c := Credentials(req, ext).value;
    CheckCredentialsOutcomes(users, ext, c.0, c.1);
  }

  /** The decoded value is split at its first ':' only: a username without ':'
      and any password, ':' included, are read back as they were joined. */
  lemma CredentialsSplitOnFirstColon(req: Request, ext: Externals, encoded: string, username: string, password: string)
    requires "Authorization" in req.headers && req.headers["Authorization"] == BASIC + encoded
    requires ext.b64decode(encoded) == Some(username + ":" + password) && ':' !in username
    ensures Credentials(req, ext) == Some((username, password))
  {
    assert (BASIC + encoded)[..|BASIC|] == BASIC && (BASIC + encoded)[|BASIC|..] == encoded;
    SplitFirstJoin(username, ':', password);
    assert username + ":" + password == username + [':'] + password;
  }

  // ------------------------------------------------------------ create_user

  const USER_EXISTS_MSG := "User with this username already exists."
  const PLEASE_VERIFY_MSG := "User with this username already exists. Please verify your email to activate your account."
  const CREATED_MSG := "User created successfully. Please verify your email to activate your account."

  /** The text `User.objects.filter(username=value)` compares with: a string as
      is, an integer or a boolean as str() renders it, nothing for null or a
      missing key. A list or an object is compared as its Python repr (such
      as "['a']"); that rendering is not modelled, and the lookup is taken to
      find no user, since no such repr is an address create_user stores. */
  function LookupText(data: map<string, Json>): Option<string>
  {
    if "username" !in data then None
    else match data["username"]
      case JStr(s) => Some(s)
      case JNum(n) => Some(IntToDecimal(n))
      case JBool(b) => Some(if b then "True" else "False")
      case _ => None
  }

  /** The user stored under the raw username of the request, if any. */
  function ExistingUser(users: map<string, User>, data: map<string, Json>): Option<User>
  {
    var key := LookupText(data);
    if key.Some? && key.value in users then Some(users[key.value]) else None
  }

  /** create_user, from the store before to the response and the store after.
      `delivered` says whether a publish to Pub/Sub succeeds; `id` is the uuid4
      a new user receives and `now` the time of the request. */
  function CreateUserSpec(s: StoreState, req: Request, ext: Externals, hostname: Option<string>,
                          delivered: bool, id: UserId, now: Instant): (Response, StoreState)
  {
    if req.httpMethod != "POST" then (NotAllowed("POST"), s)
    else match ext.jsonLoads(req.body)
      case None => (PlainResponse(400), s)
      case Some(json) =>
        if !json.JObj? then (PlainResponse(400), s)
        else
          var data := json.fields;
          match ExistingUser(s.users, data)
          case Some(u) =>
            if u.isVerified then (JsonError(USER_EXISTS_MSG, 400), s)
            else if delivered then (JsonError(PLEASE_VERIFY_MSG, 400), s.(outbox := s.outbox + [VerifyMessage(u, hostname)]))
            else (PlainResponse(400), s)
          case None =>
            match ValidateCreate(data, s.users, ext)
            case None => (PlainResponse(400), s)
            case Some(d) =>
              match CreateFromValidated(s.users, ext, d, id, now)
              case Err(_) => (PlainResponse(400), s)
              case Ok(u) =>
                var saved := s.(users := s.users[u.username := u]);
                if delivered then
                  (JsonResponse(map["message" := JStr(CREATED_MSG), "data" := JObj(Represent(u))], 201),
                   saved.(outbox := saved.outbox + [VerifyMessage(u, hostname)]))
                else (PlainResponse(400), saved)
  }

  /** create_user over the store. */
  method CreateUser(store: AccountStore, req: Request, ext: Externals, hostname: Option<string>,
                    delivered: bool, id: UserId, now: Instant) returns (resp: Response)
    requires store.Valid()
    modifies store
    ensures store.Valid()
    ensures (resp, store.State()) == CreateUserSpec(old(store.State()), req, ext, hostname, delivered, id, now)
  {
    if req.httpMethod != "POST" {
      return NotAllowed("POST");
    }
    var json := ext.jsonLoads(req.body);
    if json.None? || !json.value.JObj? {
      return PlainResponse(400);
    }
    var data := json.value.fields;
    var existing := ExistingUser(store.users, data);
    if existing.Some? {
      var u := existing.value;
      if u.isVerified {
        return JsonError(USER_EXISTS_MSG, 400);
      }
      store.Publish(VerifyMessage(u, hostname), delivered);
      if !delivered {
        return PlainResponse(400);
      }
      return JsonError(PLEASE_VERIFY_MSG, 400);
    }
    var validated := ValidateCreate(data, store.users, ext);
    if validated.None? {
      return PlainResponse(400);
    }
    var d := validated.value;
    var (password, extra) := CreateArguments(d);
    var created := store.CreateUser(ext, d.username, password, extra, id, now);
    if created.Err? {
      return PlainResponse(400);
    }
    var u := created.value;
    store.Publish(VerifyMessage(u, hostname), delivered);
    if !delivered {
      return PlainResponse(400);
    }
    resp := JsonResponse(map["message" := JStr(CREATED_MSG), "data" := JObj(Represent(u))], 201);
  }

  /** A request that is not a POST, or whose body is not a JSON object, changes
      nothing and is answered 405 (Allow: POST) or 400. */
  lemma CreateUserRefusesEarly(s: StoreState, req: Request, ext: Externals, hostname: Option<string>,
                               delivered: bool, id: UserId, now: Instant)
    requires req.httpMethod != "POST" || ext.jsonLoads(req.body).None? || !ext.jsonLoads(req.body).value.JObj?
    ensures var (r, s') := CreateUserSpec(s, req, ext, hostname, delivered, id, now);
      && s' == s
      && (req.httpMethod != "POST" ==> r.status == 405 && r.headers["Allow"] == "POST")
      && (req.httpMethod == "POST" ==> r == PlainResponse(400))
  {
  }

  /** A username that is already stored under the request's raw text: a
      verified owner gets 400 and nothing changes; an unverified owner gets 400
      and exactly one verify_email message about the stored user, when the
      publish succeeds. No user is ever added. */
  lemma CreateUserExisting(s: StoreState, req: Request, ext: Externals, hostname: Option<string>,
                           delivered: bool, id: UserId, now: Instant)
    requires req.httpMethod == "POST" && ext.jsonLoads(req.body).Some? && ext.jsonLoads(req.body).value.JObj?
    requires ExistingUser(s.users, ext.jsonLoads(req.body).value.fields).Some?
    ensures var u := ExistingUser(s.users, ext.jsonLoads(req.body).value.fields).value;
      var (r, s') := CreateUserSpec(s, req, ext, hostname, delivered, id, now);
      && r.status == 400 && s'.users == s.users && s'.verifications == s.verifications
      && (u.isVerified ==> s' == s && r == JsonError(USER_EXISTS_MSG, 400))
      && (!u.isVerified && delivered ==>
            s'.outbox == s.outbox + [Message("verify_email", u.firstName, u.username, hostname, "v1/verify")]
            && r == JsonError(PLEASE_VERIFY_MSG, 400))
      && (!u.isVerified && !delivered ==> s' == s)
  {
  }

  /** A new account: 201 exactly when the data validate, the manager's insert
      succeeds and the message is delivered; then the store gains that one
      user, unverified, stamped now, holding the hash of the given password,
      one message about it is published and the response carries its public
      fields. A failed publish leaves the user stored and answers 400. Any
      other outcome is a 400 that changes nothing. */
  lemma CreateUserNew(s: StoreState, req: Request, ext: Externals, hostname: Option<string>,
                      delivered: bool, id: UserId, now: Instant)
    requires req.httpMethod == "POST" && ext.jsonLoads(req.body).Some? && ext.jsonLoads(req.body).value.JObj?
    requires ExistingUser(s.users, ext.jsonLoads(req.body).value.fields).None?
    ensures var data := ext.jsonLoads(req.body).value.fields;
      var v := ValidateCreate(data, s.users, ext);
      var (r, s') := CreateUserSpec(s, req, ext, hostname, delivered, id, now);
      && s'.verifications == s.verifications
      && (v.None? ==> s' == s && r == PlainResponse(400))
      && (v.Some? && CreateFromValidated(s.users, ext, v.value, id, now).Err? ==> s' == s && r == PlainResponse(400))
      && (v.Some? && CreateFromValidated(s.users, ext, v.value, id, now).Ok? ==>
            var u := CreateFromValidated(s.users, ext, v.value, id, now).value;
            && u.username !in s.users && s'.users == s.users[u.username := u]
            && u.username == NormalizeEmail(v.value.username) && u.id == id
            && !u.isVerified && CheckPassword(ext, v.value.password, u.password)
            && u.accountCreated == now && u.accountUpdated == now
            && (delivered ==> r.status == 201 && s'.outbox == s.outbox + [VerifyMessage(u, hostname)]
                              && r.body == JsonBody(map["message" := JStr(CREATED_MSG), "data" := JObj(Represent(u))]))
            && (!delivered ==> r == PlainResponse(400) && s'.outbox == s.outbox))
  {
    var data := ext.jsonLoads(req.body).value.fields;
    var v := ValidateCreate(data, s.users, ext);
    if v.Some? {
      assert v.value.username != "" && v.value.password != "";
      CreateFromValidatedResult(s.users, ext, v.value, id, now);
      var c := CreateFromValidated(s.users, ext, v.value, id, now);
      if c.Ok? {
        var (password, extra) := CreateArguments(v.value);
        CreateUserRecordResult(s.users, ext, v.value.username, password, extra, id, now);
      }
    }
  }

  // -------------------------------------------------------------- user_info

  const UNEXPECTED_KEYS_STATUS: nat := 400

  /** The keys of a PUT body that UpdateUserSerializer does not know. */
  function UnexpectedKeys(data: map<string, Json>): set<string>
  {
    set k | k in data && k !in {"first_name", "last_name", "password"}
  }

  /** user_info: GET and PUT of the authenticated user's own record. */
  function UserInfoSpec(s: StoreState, req: Request, ext: Externals, now: Instant): (Response, StoreState)
  {
    if req.httpMethod != "GET" && req.httpMethod != "PUT" then (NotAllowed("GET, PUT"), s)
    else match Authenticate(req, s.users, ext)
      case Raised => (PlainResponse(400), s)
      case Rejected(status, message) => (JsonError(message, status), s)
      case Authorized(u) =>
        if req.httpMethod == "GET" then (GetSelf(req, u), s)
        else UpdateSelf(s, req, ext, now, u)
  }

  /** The GET branch of user_info for the authenticated user u. */
  function GetSelf(req: Request, u: User): Response
  {
    if HasBody(req) || HasQuery(req) then PlainResponse(400)
    else JsonResponse(Represent(u), 200)
  }

  /** The PUT branch of user_info for the authenticated user u. A body that is
      not JSON, or JSON without keys(), raises and is answered 400. */
  function UpdateSelf(s: StoreState, req: Request, ext: Externals, now: Instant, u: User): (Response, StoreState)
  {
    if HasQuery(req) then (PlainResponse(400), s)
    else match ext.jsonLoads(req.body)
      case None => (PlainResponse(400), s)
      case Some(json) =>
        if !json.JObj? || UnexpectedKeys(json.fields) != {} then (PlainResponse(400), s)
        else match ValidateUpdate(json.fields)
          case None => (PlainResponse(400), s)
          case Some(validated) =>
            (PlainResponse(204), s.(users := s.users[u.username := UpdatedUser(u, UPDATE_FIELDS, validated, ext, now)]))
  }

  /** user_info over the store. */
  method UserInfo(store: AccountStore, req: Request, ext: Externals, now: Instant) returns (resp: Response)
    requires store.Valid()
    modifies store
    ensures store.Valid()
    ensures (resp, store.State()) == UserInfoSpec(old(store.State()), req, ext, now)
  {
    if req.httpMethod != "GET" && req.httpMethod != "PUT" {
      return NotAllowed("GET, PUT");
    }
    var auth := Authenticate(req, store.users, ext);
    if auth.Raised? {
      return PlainResponse(400);
    }
    if auth.Rejected? {
      return JsonError(auth.message, auth.status);
    }
    var u := auth.user;
    AuthorizedIsStored(req, store.users, ext);
    if req.httpMethod == "GET" {
      if HasBody(req) || HasQuery(req) {
        return PlainResponse(400);
      }
      return JsonResponse(Represent(u), 200);
    }
    if HasQuery(req) {
      return PlainResponse(400);
    }
    var json := ext.jsonLoads(req.body);
    if json.None? || !json.value.JObj? || UnexpectedKeys(json.value.fields) != {} {
      return PlainResponse(400);
    }
    var validated := ValidateUpdate(json.value.fields);
    if validated.None? {
      return PlainResponse(400);
    }
    WhitelistOfMetaFields();
    var fields := ExcludeOtherFields(UPDATE_FIELDS);
    var updated := Update(fields.value, u, validated.value, ext, now);
    UpdateIsPartial(u, validated.value, ext, now);
    store.SaveUser(updated);
    resp := PlainResponse(204);
  }

  /** Credentials are checked before anything else about a GET or PUT: when
      they do not authorize, the body and the query string make no difference,
      the answer is the refusal (400 for an exception) and nothing changes. */
  lemma UserInfoCredentialsFirst(s: StoreState, req: Request, ext: Externals, now: Instant,
                                 body: string, query: seq<(string, string)>)
    requires req.httpMethod == "GET" || req.httpMethod == "PUT"
    requires !Authenticate(req, s.users, ext).Authorized?
    ensures var a := Authenticate(req, s.users, ext);
      && UserInfoSpec(s, req.(body := body, query := query), ext, now) == UserInfoSpec(s, req, ext, now)
      && UserInfoSpec(s, req, ext, now).1 == s
      && (a.Rejected? ==> UserInfoSpec(s, req, ext, now).0 == JsonError(a.message, a.status))
      && (a.Raised? ==> UserInfoSpec(s, req, ext, now).0 == PlainResponse(400))
  {
    var req' := req.(body := body, query := query);
    assert HasBasicHeader(req') == HasBasicHeader(req);
    assert Credentials(req', ext) == Credentials(req, ext);
    assert Authenticate(req', s.users, ext) == Authenticate(req, s.users, ext);
  }

  /** A method other than GET or PUT is answered 405 naming both. Only a valid
      PUT changes anything, and then only through the update of the caller's
      own row; an authorized PUT is answered by that update. */
  lemma UserInfoWrites(s: StoreState, req: Request, ext: Externals, now: Instant)
    requires ValidUsers(s.users)
    ensures var (r, s') := UserInfoSpec(s, req, ext, now);
      && (req.httpMethod != "GET" && req.httpMethod != "PUT" ==> r == NotAllowed("GET, PUT") && s' == s)
      && (req.httpMethod == "PUT" && Authenticate(req, s.users, ext).Authorized? ==>
            (r, s') == UpdateSelf(s, req, ext, now, Authenticate(req, s.users, ext).user))
      && s'.verifications == s.verifications && s'.outbox == s.outbox
      && s'.users.Keys == s.users.Keys && ValidUsers(s'.users)
      && (r.status != 204 ==> s' == s)
      && (r.status == 204 ==>
            && req.httpMethod == "PUT" && Authenticate(req, s.users, ext).Authorized?
            && (r, s') == UpdateSelf(s, req, ext, now, Authenticate(req, s.users, ext).user))
  {
    var a := Authenticate(req, s.users, ext);
    if a.Authorized? && req.httpMethod == "PUT" {
      AuthorizedIsStored(req, s.users, ext);
      UpdateSelfWrites(s, req, ext, now, a.user);
    }
  }

  /** The PUT branch answers 204 exactly when there is no query string and the
      body is a JSON object with no unexpected keys whose fields validate;
      every other PUT is answered 400 with nothing changed. It changes only
      the caller's own row, and only when it answers 204: the present fields
      take their validated values, a given password is stored hashed,
      account_updated becomes now; the id, the username, the verified flag and
      the creation stamp stay. */
  lemma UpdateSelfWrites(s: StoreState, req: Request, ext: Externals, now: Instant, u: User)
    requires ValidUsers(s.users) && u.username in s.users && s.users[u.username] == u
    ensures var (r, s') := UpdateSelf(s, req, ext, now, u);
      && s'.verifications == s.verifications && s'.outbox == s.outbox
      && s'.users.Keys == s.users.Keys && ValidUsers(s'.users)
      && (r.status == 204 <==>
            && !HasQuery(req) && ext.jsonLoads(req.body).Some? && ext.jsonLoads(req.body).value.JObj?
            && UnexpectedKeys(ext.jsonLoads(req.body).value.fields) == {}
            && ValidateUpdate(ext.jsonLoads(req.body).value.fields).Some?)
      && (r.status != 204 ==> r == PlainResponse(400) && s' == s)
      && (r.status == 204 ==>
            && r == PlainResponse(204)
            && var data := ext.jsonLoads(req.body).value.fields;
               var validated := ValidateUpdate(data).value;
                  && (forall k :: k in s.users && k != u.username ==> s'.users[k] == s.users[k])
                  && var w := s'.users[u.username];
                     && w.id == u.id && w.username == u.username && w.isVerified == u.isVerified
                     && w.accountCreated == u.accountCreated && w.accountUpdated == now
                     && w.firstName == (if "first_name" in validated then validated["first_name"] else u.firstName)
                     && w.lastName == (if "last_name" in validated then validated["last_name"] else u.lastName)
                     && w.password == (if "password" in validated then ext.hash(validated["password"]) else u.password))
  {
    var json := ext.jsonLoads(req.body);
    if !HasQuery(req) && json.Some? && json.value.JObj? && UnexpectedKeys(json.value.fields) == {}
       && ValidateUpdate(json.value.fields).Some? {
      var validated := ValidateUpdate(json.value.fields).value;
      var w := UpdatedUser(u, UPDATE_FIELDS, validated, ext, now);
      assert UpdateSelf(s, req, ext, now, u).1 == s.(users := s.users[u.username := w]);
      UpdateIsPartial(u, validated, ext, now);
      if "password" in validated {
        UpdateHashesPassword(u, validated, ext, now);
      }
      SaveKeepsValid(s.users, w);
    }
  }

  /** A PUT naming a field outside first_name, last_name and password is
      refused with 400 and the user is unchanged. */
  lemma UserInfoRejectsUnexpectedKeys(s: StoreState, req: Request, ext: Externals, now: Instant, key: string)
    requires req.httpMethod == "PUT" && !HasQuery(req) && Authenticate(req, s.users, ext).Authorized?
    requires ext.jsonLoads(req.body).Some? && ext.jsonLoads(req.body).value.JObj?
    requires key in ext.jsonLoads(req.body).value.fields && key !in UPDATE_FIELDS
    ensures UserInfoSpec(s, req, ext, now) == (PlainResponse(UNEXPECTED_KEYS_STATUS), s)
  {
    assert key in UnexpectedKeys(ext.jsonLoads(req.body).value.fields);
  }

  /** A GET never changes the store; an authorized clean GET answers 200 with
      the caller's public fields. */
  lemma UserInfoGet(s: StoreState, req: Request, ext: Externals, now: Instant)
    requires req.httpMethod == "GET"
    ensures var (r, s') := UserInfoSpec(s, req, ext, now);
      && s' == s
      && (Authenticate(req, s.users, ext).Authorized? && !HasBody(req) && !HasQuery(req) ==>
            r == JsonResponse(Represent(Authenticate(req, s.users, ext).user), 200))
      && (Authenticate(req, s.users, ext).Authorized? && (HasBody(req) || HasQuery(req)) ==> r == PlainResponse(400))
  {
  }

  // ------------------------------------------------------------ verify_user

  const CODE_MISSING_MSG := "Verification code is missing"
  const INVALID_CODE_MSG := "Invalid verification code"
  const EXPIRED_MSG := "Verification link has expired"
  const VERIFIED_MSG := "User verified successfully"
  const VERIFY_FAILED_MSG := "An error occurred while processing verification. Please try again later."

  /** The verification record a query string redeems: the `code` parameter, its
      segment after the first '/', and the one record holding that segment.
      None when there is no such single record (no '/', no match, or several
      matches, which objects.get refuses). */
  function RecordFor(vs: seq<Verification>, code: string): (r: Option<nat>)
    ensures r.Some? ==> r.value < |vs| && Some(vs[r.value].code) == SecondSegment(code, '/')
    ensures r.Some? <==> SecondSegment(code, '/').Some? && exists i :: SoleMatch(vs, SecondSegment(code, '/').value, i)
    ensures r.Some? ==> SoleMatch(vs, SecondSegment(code, '/').value, r.value)
  {
    match SecondSegment(code, '/')
    case None => None
    case Some(segment) =>
      var found := Matching(vs, segment);
      MatchingSole(vs, segment);
      if |found| == 1 then Some(found[0]) else None
  }

  /** verify_user. */
  ghost function VerifyUserSpec(s: StoreState, req: Request, now: Instant): (Response, StoreState)
  {
    var code := QueryGet(req.query, "code");
    if code.None? || code.value == "" then (JsonError(CODE_MISSING_MSG, 400), s)
    else match RecordFor(s.verifications, code.value)
      case None => (JsonError(INVALID_CODE_MSG, 404), s)
      case Some(i) => Redeem(s, i, now)
  }

  /** The redemption of record i: expiry first, then use; a redeemable record
      is marked used and then its user, if there is one, verified. */
  ghost function Redeem(s: StoreState, i: nat, now: Instant): (Response, StoreState)
    requires i < |s.verifications|
  {
    var v := s.verifications[i];
    if v.expiresAt < now then (JsonError(EXPIRED_MSG, 400), s)
    else if v.isUsed then (JsonError(EXPIRED_MSG, 400), s)
    else
      var marked := s.(verifications := s.verifications[i := v.(isUsed := true)]);
      match UserKeyById(s.users, v.userId)
      case None => (JsonError(VERIFY_FAILED_MSG, 500), marked)
      case Some(k) =>
        (JsonResponse(map["success" := JStr(VERIFIED_MSG)], 200),
         marked.(users := s.users[k := s.users[k].(isVerified := true, accountUpdated := now)]))
  }

  /** verify_user over the store. */
  method VerifyUser(store: AccountStore, req: Request, now: Instant) returns (resp: Response)
    requires store.Valid()
    modifies store
    ensures store.Valid()
    ensures (resp, store.State()) == VerifyUserSpec(old(store.State()), req, now)
  {
    var code := QueryGet(req.query, "code");
    if code.None? || code.value == "" {
      return JsonError(CODE_MISSING_MSG, 400);
    }
    var segment := SecondSegment(code.value, '/');
    if segment.None? {
      return JsonError(INVALID_CODE_MSG, 404);
    }
    var found := store.FindVerifications(segment.value);
    if |found| != 1 {
      return JsonError(INVALID_CODE_MSG, 404);
    }
    var i := found[0];
    var v := store.verifications[i];
    if v.expiresAt < now {
      return JsonError(EXPIRED_MSG, 400);
    }
    if v.isUsed {
      return JsonError(EXPIRED_MSG, 400);
    }
    store.MarkUsed(i);
    var key := store.FindUserById(v.userId);
    if key.None? {
      return JsonError(VERIFY_FAILED_MSG, 500);
    }
    var owner := store.users[key.value];
    store.SaveUser(owner.(isVerified := true, accountUpdated := now));
    resp := JsonResponse(map["success" := JStr(VERIFIED_MSG)], 200);
  }

  /** Redemption only ever sets flags: no record or user appears or vanishes,
      a used record stays used, a verified user stays verified, and the
      outbox is untouched. */
  lemma VerifyUserMonotonic(s: StoreState, req: Request, now: Instant)
    requires ValidUsers(s.users)
    ensures var (_, s') := VerifyUserSpec(s, req, now);
      && ValidUsers(s'.users) && s'.users.Keys == s.users.Keys && s'.outbox == s.outbox
      && |s'.verifications| == |s.verifications|
      && (forall i :: 0 <= i < |s.verifications| ==>
            && s'.verifications[i].code == s.verifications[i].code
            && s'.verifications[i].userId == s.verifications[i].userId
            && s'.verifications[i].expiresAt == s.verifications[i].expiresAt
            && (s.verifications[i].isUsed ==> s'.verifications[i].isUsed))
      && (forall k :: k in s.users && s.users[k].isVerified ==> s'.users[k].isVerified)
  {
    var code := QueryGet(req.query, "code");
    if code.Some? && code.value != "" && RecordFor(s.verifications, code.value).Some? {
      RedeemMonotonic(s, RecordFor(s.verifications, code.value).value, now);
    }
  }

  /** The frame of one redemption. */
  lemma RedeemMonotonic(s: StoreState, i: nat, now: Instant)
    requires ValidUsers(s.users) && i < |s.verifications|
    ensures var (_, s') := Redeem(s, i, now);
      && ValidUsers(s'.users) && s'.users.Keys == s.users.Keys && s'.outbox == s.outbox
      && |s'.verifications| == |s.verifications|
      && (forall j :: 0 <= j < |s.verifications| ==>
            && s'.verifications[j].code == s.verifications[j].code
            && s'.verifications[j].userId == s.verifications[j].userId
            && s'.verifications[j].expiresAt == s.verifications[j].expiresAt
            && (s.verifications[j].isUsed ==> s'.verifications[j].isUsed))
      && (forall k :: k in s.users && s.users[k].isVerified ==> s'.users[k].isVerified)
  {
    var v := s.verifications[i];
    if !(v.expiresAt < now) && !v.isUsed {
      var key := UserKeyById(s.users, v.userId);
      if key.Some? {
        var k := key.value;
        SaveKeepsValid(s.users, s.users[k].(isVerified := true, accountUpdated := now));
      }
    }
  }

  /** The outcomes of a redemption. A missing or empty code: 400. No single
      record for its segment: 404. An expired record (checked first) or a used
      one: 400 "Verification link has expired". In all of these nothing
      changes. Otherwise, and only otherwise, the record becomes used and, when
      its user exists, that user becomes verified with 200; when its user is
      missing the record is still used and the answer is 500. */
  lemma VerifyUserOutcomes(s: StoreState, req: Request, now: Instant)
    requires ValidUsers(s.users)
    ensures var (r, s') := VerifyUserSpec(s, req, now);
      var code := QueryGet(req.query, "code");
      && ((code.None? || code.value == "") ==> r == JsonError(CODE_MISSING_MSG, 400) && s' == s)
      && (code.Some? && code.value != "" && RecordFor(s.verifications, code.value).None? ==>
            r == JsonError(INVALID_CODE_MSG, 404) && s' == s)
      && (r.status == 400 || r.status == 404 ==> s' == s)
      && (code.Some? && code.value != "" && RecordFor(s.verifications, code.value).Some? ==>
            var v := s.verifications[RecordFor(s.verifications, code.value).value];
            && ((v.expiresAt < now || v.isUsed) ==> r == JsonError(EXPIRED_MSG, 400) && s' == s)
            && (!(v.expiresAt < now) && !v.isUsed ==> r.status == 200 || r.status == 500))
      && (r.status == 200 || r.status == 500 ==>
            && code.Some? && RecordFor(s.verifications, code.value).Some?
            && var i := RecordFor(s.verifications, code.value).value;
               var v := s.verifications[i];
               && !(v.expiresAt < now) && !v.isUsed
               && s'.verifications == s.verifications[i := v.(isUsed := true)]
               && (r.status == 200 <==> exists k :: k in s.users && s.users[k].id == v.userId)
               && (r.status == 500 ==> s'.users == s.users)
               && (forall k :: k in s.users && s.users[k].id == v.userId ==>
                     s'.users == s.users[k := s.users[k].(isVerified := true, accountUpdated := now)]))
  {
    var code := QueryGet(req.query, "code");
    if code.Some? && code.value != "" && RecordFor(s.verifications, code.value).Some? {
      var i := RecordFor(s.verifications, code.value).value;
      var v := s.verifications[i];
      forall k | k in s.users && s.users[k].id == v.userId
        ensures UserKeyById(s.users, v.userId) == Some(k)
      {
        UserKeyByIdUnique(s.users, v.userId, k);
      }
    }
  }

  /** A code is redeemed at most once: whatever the first request did, the same
      request again, at any later time, changes nothing and is refused. */
  lemma VerifyUserSingleUse(s: StoreState, req: Request, now: Instant, later: Instant)
    requires ValidUsers(s.users)
    requires VerifyUserSpec(s, req, now).0.status == 200 || VerifyUserSpec(s, req, now).0.status == 500
    ensures var s1 := VerifyUserSpec(s, req, now).1;
      var (r2, s2) := VerifyUserSpec(s1, req, later);
      s2 == s1 && r2.status == 400
  {
    VerifyUserOutcomes(s, req, now);
    var s1 := VerifyUserSpec(s, req, now).1;
    var code := QueryGet(req.query, "code").value;
    var i := RecordFor(s.verifications, code).value;
    var segment := SecondSegment(code, '/').value;
    assert forall j :: 0 <= j < |s.verifications| ==> s1.verifications[j].code == s.verifications[j].code;
    assert s1.verifications == s.verifications[i := s.verifications[i].(isUsed := true)];
    MatchingSameCodes(s.verifications, s1.verifications, segment);
  }

  /** A code whose segment is held by no record, or by two or more (the
      verification code is not unique, so `objects.get` raises), is answered
      404 and nothing changes. */
  lemma VerifyUserNoSoleRecord(s: StoreState, req: Request, now: Instant)
    requires QueryGet(req.query, "code").Some? && QueryGet(req.query, "code").value != ""
    requires SecondSegment(QueryGet(req.query, "code").value, '/').Some?
    requires !exists i :: SoleMatch(s.verifications, SecondSegment(QueryGet(req.query, "code").value, '/').value, i)
    ensures VerifyUserSpec(s, req, now) == (JsonError(INVALID_CODE_MSG, 404), s)
  {
  }

  /** In particular two records holding the same segment make it unredeemable. */
  lemma VerifyUserDuplicateCode(s: StoreState, req: Request, now: Instant, a: nat, b: nat)
    requires QueryGet(req.query, "code").Some? && QueryGet(req.query, "code").value != ""
    requires a < b < |s.verifications| && s.verifications[a].code == s.verifications[b].code
    requires SecondSegment(QueryGet(req.query, "code").value, '/') == Some(s.verifications[a].code)
    ensures VerifyUserSpec(s, req, now) == (JsonError(INVALID_CODE_MSG, 404), s)
  {
    var segment := s.verifications[a].code;
    assert forall i :: SoleMatch(s.verifications, segment, i) ==> a == i && b == i;
    VerifyUserNoSoleRecord(s, req, now);
  }

  /** Matching depends only on the codes. */
  lemma {:induction false} MatchingSameCodes(vs: seq<Verification>, ws: seq<Verification>, code: string)
    requires |vs| == |ws| && forall j :: 0 <= j < |vs| ==> vs[j].code == ws[j].code
    ensures Matching(vs, code) == Matching(ws, code)
  {
    if vs != [] {
      MatchingSameCodes(vs[..|vs| - 1], ws[..|ws| - 1], code);
    }
  }

  /** Because of the None dereference in the branch for a missing user, a
      record whose user is gone ends in 500 although it is marked used. */
  lemma VerifyUserMissingOwner(s: StoreState, req: Request, now: Instant, i: nat)
    requires ValidUsers(s.users)
    requires QueryGet(req.query, "code").Some? && QueryGet(req.query, "code").value != ""
    requires RecordFor(s.verifications, QueryGet(req.query, "code").value) == Some(i)
    requires !(s.verifications[i].expiresAt < now) && !s.verifications[i].isUsed
    requires forall k :: k in s.users ==> s.users[k].id != s.verifications[i].userId
    ensures VerifyUserSpec(s, req, now) ==
      (JsonError(VERIFY_FAILED_MSG, 500), s.(verifications := s.verifications[i := s.verifications[i].(isUsed := true)]))
  {
  }
}
