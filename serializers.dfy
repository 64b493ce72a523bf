/** The three user serializers: what they emit (BaseUserSerializer and its
    subclass UserSerializer), what they accept on creation
    (CreateUserSerializer) and how they change a user on update
    (UpdateUserSerializer). Field validation follows the Django REST framework
    CharField the model fields map to. */
module Serializers {
  import opened Wrappers
  import opened Text
  import opened Timestamps
  import opened JsonValues
  import opened Externals
  import opened Models

  // ---------------------------------------------------------------- output

  /** BaseUserSerializer.Meta.fields: the public fields. */
  const PUBLIC_FIELDS: set<string> :=
    {"id", "first_name", "last_name", "username", "account_created", "account_updated"}

  /** `serializer.data` for a user: the public fields, the time stamps rendered
      with "%Y-%m-%dT%H:%M:%SZ". */
  function Represent(u: User): (r: map<string, Json>)
    ensures "password" !in r && "is_verified" !in r
    ensures forall k :: k in r ==> r[k].JStr?
  {
    map["id" := JStr(u.id),
        "first_name" := JStr(u.firstName),
        "last_name" := JStr(u.lastName),
        "username" := JStr(u.username),
        "account_created" := JStr(FormatInstant(u.accountCreated)),
        "account_updated" := JStr(FormatInstant(u.accountUpdated))]
  }

  /** The representation holds the public fields and nothing else. */
  lemma RepresentKeys(u: User)
    ensures Represent(u).Keys == PUBLIC_FIELDS
  {
    var r := Represent(u);
    assert r.Keys == {"id"} + {"first_name"} + {"last_name"} + {"username"} + {"account_created"} + {"account_updated"};
  }

  /** The representation is blind to the password and to the verified flag. */
  lemma RepresentIgnoresSecrets(u: User, password: string, verified: bool)
    ensures Represent(u.(password := password, isVerified := verified)) == Represent(u)
  {
  }

  /** What a client reads back from the representation of a user. */
  datatype PublicUser = PublicUser(
    id: string, firstName: string, lastName: string, username: string,
    accountCreated: Instant, accountUpdated: Instant)

  /** The text of a field, if the field is present and a string. */
  function TextOf(r: map<string, Json>, k: string): Option<string>
  {
    if k in r && r[k].JStr? then Some(r[k].s) else None
  }

  /** Reads a rendered time stamp back to an instant. */
  function InstantOf(r: map<string, Json>, k: string): Option<Instant>
  {
    var text := TextOf(r, k);
    if text.None? then None
    else
      var dt := Parse(text.value);
      if dt.Some? && ValidDateTime(dt.value) && dt.value.year >= 1970 then Some(ToInstant(dt.value)) else None
  }

  /** Reads a representation back; None when a field is missing or a stamp does not parse. */
  function ReadBack(r: map<string, Json>): Option<PublicUser>
  {
    var id, first, last, name := TextOf(r, "id"), TextOf(r, "first_name"), TextOf(r, "last_name"), TextOf(r, "username");
    var created, updated := InstantOf(r, "account_created"), InstantOf(r, "account_updated");
    if id.Some? && first.Some? && last.Some? && name.Some? && created.Some? && updated.Some? then
      Some(PublicUser(id.value, first.value, last.value, name.value, created.value, updated.value))
    else None
  }

  /** A stamp rendered into a representation reads back to the same instant. */
  lemma InstantOfRendered(r: map<string, Json>, k: string, t: Instant)
    requires k in r && r[k] == JStr(FormatInstant(t)) && ToDateTime(t).year < 10000
    ensures InstantOf(r, k) == Some(t)
  {
    FormatInstantRoundTrip(t);
  }

  /** Before the year 10000 the representation loses nothing a client may see. */
  lemma ReadBackRepresent(u: User)
    requires ToDateTime(u.accountCreated).year < 10000 && ToDateTime(u.accountUpdated).year < 10000
    ensures ReadBack(Represent(u)) ==
            Some(PublicUser(u.id, u.firstName, u.lastName, u.username, u.accountCreated, u.accountUpdated))
  {
    var r := Represent(u);
    assert TextOf(r, "id") == Some(u.id) && TextOf(r, "username") == Some(u.username);
    assert TextOf(r, "first_name") == Some(u.firstName) && TextOf(r, "last_name") == Some(u.lastName);
    InstantOfRendered(r, "account_created", u.accountCreated);
    InstantOfRendered(r, "account_updated", u.accountUpdated);
  }

  // ------------------------------------------------------- field validation

  /** The DRF CharField a field maps to: max_length (None when unbounded). */
  datatype CharRule = CharRule(maxLength: Option<nat>)

  /** first_name and last_name: CharField(max_length=100). */
  const NAME_RULE := CharRule(Some(100))
  /** username: EmailField(max_length=254). */
  const USERNAME_RULE := CharRule(Some(254))
  /** CreateUserSerializer's declared password field: CharField() without a bound. */
  const CREATE_PASSWORD_RULE := CharRule(None)
  /** UpdateUserSerializer's password: the model's CharField(max_length=128). */
  const UPDATE_PASSWORD_RULE := CharRule(Some(128))

  /** CharField.run_validation on a present value: strings and integers are
      accepted (an integer as its decimal text), surrounding white space is
      trimmed, a blank value, a value over max_length and a value holding NUL
      are refused; null, booleans, lists and objects are refused. */
  function ValidateChar(v: Json, rule: CharRule): (r: Option<string>)
    ensures r.Some? ==> r.value != [] && '\0' !in r.value
    ensures r.Some? && rule.maxLength.Some? ==> |r.value| <= rule.maxLength.value
    ensures r.Some? ==> v.JStr? || v.JNum?
  {
    var text := match v
      case JStr(s) => Some(Strip(s))
      case JNum(n) => Some(IntToDecimal(n))
      case _ => None;
    if text.Some? && text.value != [] && '\0' !in text.value
       && (rule.maxLength.None? || |text.value| <= rule.maxLength.value)
    then text
    else None
  }

  /** A string value that has no surrounding white space and fits passes unchanged. */
  lemma ValidateCharKeeps(s: string, rule: CharRule)
    requires s != [] && !IsSpace(s[0]) && !IsSpace(s[|s| - 1]) && '\0' !in s
    requires rule.maxLength.None? || |s| <= rule.maxLength.value
    ensures ValidateChar(JStr(s), rule) == Some(s)
  {
    StripUnchanged(s);
  }

  /** Validation is stable: the text a string value is accepted as is itself
      accepted, unchanged, when sent again (the trim is done once and for all). */
  lemma ValidateCharStable(s: string, rule: CharRule)
    requires ValidateChar(JStr(s), rule).Some?
    ensures ValidateChar(JStr(ValidateChar(JStr(s), rule).value), rule) == ValidateChar(JStr(s), rule)
  {
    StripIdempotent(s);
  }

  /** A value that is empty or only white space is refused. */
  lemma ValidateCharRefusesBlank(s: string, rule: CharRule)
    requires forall i :: 0 <= i < |s| ==> IsSpace(s[i])
    ensures ValidateChar(JStr(s), rule).None?
  {
    StripShape(s);
  }

  // -------------------------------------------------------------- creation

  /** CreateUserSerializer's validated_data. */
  datatype CreateData = CreateData(username: string, firstName: string, lastName: string, password: string)

  /** The fields CreateUserSerializer reads from the input; id, account_created and
      account_updated are read-only and anything else is ignored. */
  const CREATE_INPUT_FIELDS: set<string> := {"username", "first_name", "last_name", "password"}

  /** A required field: missing is refused, present is validated by its rule. */
  function RequiredChar(data: map<string, Json>, name: string, rule: CharRule): Option<string>
  {
    if name in data then ValidateChar(data[name], rule) else None
  }

  /** CreateUserSerializer(data=...).is_valid(): every writable field present and
      valid, the username an e-mail address not already stored (UniqueValidator)
      under exactly that text. */
  function ValidateCreate(data: map<string, Json>, users: map<string, User>, ext: Externals): Option<CreateData>
  {
    var username := RequiredChar(data, "username", USERNAME_RULE);
    var firstName := RequiredChar(data, "first_name", NAME_RULE);
    var lastName := RequiredChar(data, "last_name", NAME_RULE);
    var password := RequiredChar(data, "password", CREATE_PASSWORD_RULE);
    if username.Some? && ext.isEmail(username.value) && username.value !in users
       && firstName.Some? && lastName.Some? && password.Some?
    then Some(CreateData(username.value, firstName.value, lastName.value, password.value))
    else None
  }

  /** Validation accepts exactly: the four writable fields present and valid, the
      username an unused e-mail address; read-only and unknown keys play no part. */
  lemma ValidateCreateAccepts(data: map<string, Json>, users: map<string, User>, ext: Externals)
    ensures ValidateCreate(data, users, ext).Some? <==>
      && (forall k :: k in CREATE_INPUT_FIELDS ==> k in data)
      && ValidateChar(data["username"], USERNAME_RULE).Some?
      && ext.isEmail(ValidateChar(data["username"], USERNAME_RULE).value)
      && ValidateChar(data["username"], USERNAME_RULE).value !in users
      && ValidateChar(data["first_name"], NAME_RULE).Some?
      && ValidateChar(data["last_name"], NAME_RULE).Some?
      && ValidateChar(data["password"], CREATE_PASSWORD_RULE).Some?
    ensures forall k :: k !in CREATE_INPUT_FIELDS ==>
      ValidateCreate(data - {k}, users, ext) == ValidateCreate(data, users, ext)
  {
    var missing := set k | k in CREATE_INPUT_FIELDS && k !in data;
    if ValidateCreate(data, users, ext).Some? {
      assert "username" in data && "first_name" in data && "last_name" in data && "password" in data;
    }
    forall k | k !in CREATE_INPUT_FIELDS
      ensures ValidateCreate(data - {k}, users, ext) == ValidateCreate(data, users, ext)
    {
      var d := data - {k};
      assert forall f :: f in CREATE_INPUT_FIELDS ==> (f in d <==> f in data) && (f in d ==> d[f] == data[f]);
    }
  }

  /** The test case: an input without a username is refused. */
  lemma CreateNeedsUsername(data: map<string, Json>, users: map<string, User>, ext: Externals)
    requires "username" !in data
    ensures ValidateCreate(data, users, ext).None?
  {
  }

  /** CreateUserSerializer.create: validated_data without the password become
      create_user's keyword arguments, the password is handed over separately. */
  function CreateArguments(d: CreateData): (Option<string>, map<string, FieldValue>)
  {
    (Some(d.password), map["first_name" := TextValue(d.firstName), "last_name" := TextValue(d.lastName)])
  }

  /** serializer.save() on creation: the manager's record for the validated username. */
  function CreateFromValidated(users: map<string, User>, ext: Externals, d: CreateData,
                               id: UserId, now: Instant): Result<User, ModelError>
  {
    var (password, extra) := CreateArguments(d);
    CreateUserRecord(users, ext, d.username, password, extra, id, now)
  }

  /** A validated creation can only fail on the unique constraints: the
      normalized username may clash, or the id. When it succeeds the stored user
      holds the given names, is unverified and verifies the given password. */
  lemma CreateFromValidatedResult(users: map<string, User>, ext: Externals, d: CreateData,
                                  id: UserId, now: Instant)
    requires d.username != "" && d.password != ""
    ensures var r := CreateFromValidated(users, ext, d, id, now);
      && (r.Err? ==> r.error == IntegrityError)
      && (r.Ok? ==>
            && r.value.username == NormalizeEmail(d.username) && r.value.id == id
            && r.value.firstName == d.firstName && r.value.lastName == d.lastName
            && !r.value.isVerified
            && CheckPassword(ext, d.password, r.value.password)
            && r.value.accountCreated == now && r.value.accountUpdated == now)
  {
    var (password, extra) := CreateArguments(d);
    assert Rejected(extra) == {} by {
      forall k | k in extra ensures AcceptedField(k, extra[k]) { }
    }
    CreateUserRecordErrors(users, ext, d.username, password, extra, id, now);
    if CreateUserRecord(users, ext, d.username, password, extra, id, now).Ok? {
      CreateUserRecordResult(users, ext, d.username, password, extra, id, now);
    }
  }

  // ---------------------------------------------------------------- update

  /** UpdateUserSerializer.Meta.fields: the only fields an update may touch. */
  const UPDATE_FIELDS: seq<string> := ["first_name", "last_name", "password"]

  /** The fields of `names` that the update whitelist lets through, in order. */
  function Whitelisted(names: seq<string>): (r: seq<string>)
    ensures |r| <= |names|
  {
    if names == [] then []
    else (if names[0] in UPDATE_FIELDS then [names[0]] else []) + Whitelisted(names[1..])
  }

  /** Whitelisted keeps exactly the whitelisted fields. */
  lemma {:induction false} WhitelistedMembers(names: seq<string>)
    ensures forall n :: n in Whitelisted(names) <==> n in names && n in UPDATE_FIELDS
  {
    if names != [] {
      WhitelistedMembers(names[1..]);
      assert names == [names[0]] + names[1..];
    }
  }

  /** A list already inside the whitelist is kept whole. */
  lemma {:induction false} WhitelistedKeepsAllowed(names: seq<string>)
    requires forall i :: 0 <= i < |names| ==> names[i] in UPDATE_FIELDS
    ensures Whitelisted(names) == names
  {
    if names != [] {
      WhitelistedKeepsAllowed(names[1..]);
    }
  }

  /** The fields UpdateUserSerializer starts from are its Meta fields, so the
      loop in __init__ removes nothing. */
  lemma WhitelistOfMetaFields()
    ensures Whitelisted(UPDATE_FIELDS) == UPDATE_FIELDS
  {
    WhitelistedKeepsAllowed(UPDATE_FIELDS);
  }

  /** Whitelisted keeps a list whole exactly when every name in it is whitelisted. */
  lemma WhitelistedWhole(names: seq<string>)
    ensures Whitelisted(names) == names <==> forall i :: 0 <= i < |names| ==> names[i] in UPDATE_FIELDS
  {
    if forall i :: 0 <= i < |names| ==> names[i] in UPDATE_FIELDS {
      WhitelistedKeepsAllowed(names);
    }
    if Whitelisted(names) == names {
      WhitelistedMembers(names);
      assert forall i :: 0 <= i < |names| ==> names[i] in Whitelisted(names);
    }
  }

  /** UpdateUserSerializer.__init__ as written: it pops from self.fields while
      iterating over self.fields.keys(), a live view of the dict behind the
      BindingDict. After a pop the key iterator's next step raises
      RuntimeError ("dictionary changed size during iteration"), even when the
      popped key was the last one. So the loop either keeps every field or
      raises (None), and it raises exactly when it has a field to drop. */
  method ExcludeOtherFields(fields: seq<string>) returns (r: Option<seq<string>>)
    ensures r.Some? <==> forall i :: 0 <= i < |fields| ==> fields[i] in UPDATE_FIELDS
    ensures r.Some? <==> Whitelisted(fields) == fields
    ensures r.Some? ==> r.value == fields
  {
    WhitelistedWhole(fields);
    var current := fields;
    var i := 0;
    while i < |fields|
      invariant 0 <= i <= |fields|
      invariant current == fields
      invariant forall j :: 0 <= j < i ==> fields[j] in UPDATE_FIELDS
    {
      if fields[i] !in UPDATE_FIELDS {
        current := current[..i] + current[i + 1..];
        // the dict has changed size: the iterator's next step raises
        return None;
      }
      i := i + 1;
    }
    r := Some(current);
  }

  /** The loop as evidently intended, over a copy of the keys
      (`list(self.fields.keys())`): it drops every field outside the whitelist
      and keeps the rest in order. */
  method ExcludeOtherFieldsOverCopy(fields: seq<string>) returns (kept: seq<string>)
    ensures kept == Whitelisted(fields)
    ensures forall n :: n in kept <==> n in fields && n in UPDATE_FIELDS
  {
    WhitelistedMembers(fields);
    kept := [];
    var i := |fields|;
    while i > 0
      invariant 0 <= i <= |fields|
      invariant kept == Whitelisted(fields[i..])
      decreases i
    {
      i := i - 1;
      assert fields[i..][1..] == fields[i + 1..];
      if fields[i] in UPDATE_FIELDS {
        kept := [fields[i]] + kept;
      }
    }
    assert fields[0..] == fields;
  }

  /** A field list holding one field outside the whitelist, ahead of a
      whitelisted one: the loop as written raises on it, while the intended
      loop keeps just the whitelisted field. */
  lemma ExclusionRaisesOnExtraField()
    ensures Whitelisted(["x", "first_name"]) == ["first_name"]
    ensures Whitelisted(["x", "first_name"]) != ["x", "first_name"]
  {
    assert ["x", "first_name"][1..] == ["first_name"];
    assert ["first_name"][1..] == [];
  }

  /** A present optional field is validated by its rule. */
  function OptionalChar(data: map<string, Json>, name: string, rule: CharRule): Option<Option<string>>
  {
    if name !in data then Some(None)
    else match ValidateChar(data[name], rule)
      case None => None
      case Some(v) => Some(Some(v))
  }

  /** UpdateUserSerializer(user, data=...).is_valid(): each of the three fields is
      optional (extra_kwargs), a present one must be valid; validated_data holds
      the present ones. */
  function ValidateUpdate(data: map<string, Json>): (r: Option<map<string, string>>)
    ensures r.Some? ==> forall k :: k in r.value ==> k in UPDATE_FIELDS && k in data && r.value[k] != ""
  {
    var first := OptionalChar(data, "first_name", NAME_RULE);
    var last := OptionalChar(data, "last_name", NAME_RULE);
    var password := OptionalChar(data, "password", UPDATE_PASSWORD_RULE);
    if first.None? || last.None? || password.None? then None
    else
      var m0: map<string, string> := map[];
      var m1 := if first.value.Some? then m0["first_name" := first.value.value] else m0;
      var m2 := if last.value.Some? then m1["last_name" := last.value.value] else m1;
      Some(if password.value.Some? then m2["password" := password.value.value] else m2)
  }

  /** Validation of an update refuses exactly a present field that fails its
      rule, and keeps every present field. */
  lemma ValidateUpdateAccepts(data: map<string, Json>)
    ensures ValidateUpdate(data).Some? <==>
      && ("first_name" in data ==> ValidateChar(data["first_name"], NAME_RULE).Some?)
      && ("last_name" in data ==> ValidateChar(data["last_name"], NAME_RULE).Some?)
      && ("password" in data ==> ValidateChar(data["password"], UPDATE_PASSWORD_RULE).Some?)
    ensures ValidateUpdate(data).Some? ==>
      forall k :: k in UPDATE_FIELDS && k in data ==> k in ValidateUpdate(data).value
  {
  }

  /** The test case: an empty first_name makes the update invalid. */
  lemma UpdateRefusesEmptyFirstName(data: map<string, Json>)
    requires "first_name" in data && data["first_name"] == JStr("")
    ensures ValidateUpdate(data).None?
  {
  }

  /** `setattr(instance, name, value)` for the fields an update may name. */
  function SetAttr(u: User, name: string, value: string): User
  {
    if name == "first_name" then u.(firstName := value)
    else if name == "last_name" then u.(lastName := value)
    else if name == "password" then u.(password := value)
    else u
  }

  /** The instance after the setattr loop has run over `names`. */
  function Assigned(u: User, names: seq<string>, validated: map<string, string>): User
  {
    if names == [] then u
    else
      var last := names[|names| - 1];
      var before := Assigned(u, names[..|names| - 1], validated);
      if last in validated then SetAttr(before, last, validated[last]) else before
  }

  /** The user an update writes: the present fields take their validated values,
      a present password is replaced by its hash, and the save stamps
      account_updated. */
  function UpdatedUser(u: User, names: seq<string>, validated: map<string, string>,
                       ext: Externals, now: Instant): User
  {
    var written := Assigned(u, names, validated);
    var hashed := if "password" in validated && validated["password"] != ""
                  then written.(password := ext.hash(validated["password"])) else written;
    hashed.(accountUpdated := now)
  }

  /** UpdateUserSerializer.update: setattr for each whitelisted field that the
      validated data holds, then set_password for a non-empty password, then save. */
  method Update(fields: seq<string>, instance: User, validated: map<string, string>,
                ext: Externals, now: Instant) returns (u: User)
    ensures u == UpdatedUser(instance, fields, validated, ext, now)
  {
    u := instance;
    var i := 0;
    while i < |fields|
      invariant 0 <= i <= |fields|
      invariant u == Assigned(instance, fields[..i], validated)
    {
      assert fields[..i + 1][..i] == fields[..i];
      if fields[i] in validated {
        u := SetAttr(u, fields[i], validated[fields[i]]);
      }
      i := i + 1;
    }
    assert fields[..|fields|] == fields;
    if "password" in validated && validated["password"] != "" {
      u := u.(password := ext.hash(validated["password"]));
    }
    u := u.(accountUpdated := now);
  }

  /** The setattr loop leaves a field alone unless it is
      named and present, and then gives it the validated value. */
  lemma {:induction false} AssignedFields(u: User, names: seq<string>, validated: map<string, string>)
    ensures var a := Assigned(u, names, validated);
      && a.id == u.id && a.username == u.username && a.isVerified == u.isVerified
      && a.accountCreated == u.accountCreated && a.accountUpdated == u.accountUpdated
      && a.firstName == (if "first_name" in names && "first_name" in validated then validated["first_name"] else u.firstName)
      && a.lastName == (if "last_name" in names && "last_name" in validated then validated["last_name"] else u.lastName)
      && a.password == (if "password" in names && "password" in validated then validated["password"] else u.password)
  {
    if names != [] {
      var init, last := names[..|names| - 1], names[|names| - 1];
      AssignedFields(u, init, validated);
      assert names == init + [last];
      assert ("first_name" in names) == ("first_name" in init || last == "first_name");
      assert ("last_name" in names) == ("last_name" in init || last == "last_name");
      assert ("password" in names) == ("password" in init || last == "password");
    }
  }

  /** The update is partial: with the whitelisted fields, a field the validated
      data leaves out keeps its old value, a given name is taken as is, the
      identity, username, verified flag and creation stamp never change, and
      account_updated becomes the time of the save. */
  lemma UpdateIsPartial(u: User, validated: map<string, string>, ext: Externals, now: Instant)
    ensures var r := UpdatedUser(u, UPDATE_FIELDS, validated, ext, now);
      && r.id == u.id && r.username == u.username && r.isVerified == u.isVerified
      && r.accountCreated == u.accountCreated && r.accountUpdated == now
      && r.firstName == (if "first_name" in validated then validated["first_name"] else u.firstName)
      && r.lastName == (if "last_name" in validated then validated["last_name"] else u.lastName)
      && ("password" !in validated ==> r.password == u.password)
  {
    AssignedFields(u, UPDATE_FIELDS, validated);
  }

  /** A password given on update is stored as its hash, so it is the password
      the user now authenticates with (set_password overwrites the raw value). */
  lemma UpdateHashesPassword(u: User, validated: map<string, string>, ext: Externals, now: Instant)
    requires "password" in validated && validated["password"] != ""
    ensures var r := UpdatedUser(u, UPDATE_FIELDS, validated, ext, now);
      r.password == ext.hash(validated["password"]) && CheckPassword(ext, validated["password"], r.password)
  {
  }
}
