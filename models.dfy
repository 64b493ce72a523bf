/** The two stored entities (User, UserVerification), their defaults and
    constraints, and CustomUserManager's construction of a user. */
module Models {
  import opened Wrappers
  import opened Text
  import opened Timestamps
  import opened Externals

  /** A UUID, written as text. */
  type UserId = string

  /** A row of the user table. `password` holds the hash (or "" when none was set). */
  datatype User = User(
    id: UserId,
    username: string,
    firstName: string,
    lastName: string,
    password: string,
    isVerified: bool,
    accountCreated: Instant,
    accountUpdated: Instant)

  /** A row of the verification table. */
  datatype Verification = Verification(
    userId: UserId,
    code: string,
    sentAt: Instant,
    expiresAt: Instant,
    isUsed: bool)

  /** A keyword argument handed to the model constructor. */
  datatype FieldValue = TextValue(text: string) | FlagValue(flag: bool)

  datatype ModelError =
    | EmptyUsername                        // ValueError('The Username field must be set')
    | RejectedFields(names: set<string>)   // TypeError from the model constructor
    | IntegrityError                       // unique constraint on username or primary key

  /** BaseUserManager.normalize_email: lower-case the part after the last '@';
      a value without '@' comes back as given (not even stripped). */
  function NormalizeEmail(email: string): string
  {
    NormalizeStripped(email, Strip(email))
  }

  /** The split at the last '@' of the stripped address. */
  function NormalizeStripped(email: string, stripped: string): string
  {
    match LastIndex(stripped, '@')
    case None => email
    case Some(i) => stripped[..i] + "@" + Lower(stripped[i + 1..])
  }

  lemma StripUnchanged(s: string)
    requires s == [] || (!IsSpace(s[0]) && !IsSpace(s[|s| - 1]))
    ensures Strip(s) == s
  {
  }

  lemma LowerIdempotent(s: string)
    ensures Lower(Lower(s)) == Lower(s)
  {
    LowerAt(s);
    LowerAt(Lower(s));
    forall i | 0 <= i < |s| ensures Lower(Lower(s))[i] == Lower(s)[i] { LowerCharKeeps(s[i]); }
  }

  lemma LowerNoAt(s: string)
    requires '@' !in s
    ensures '@' !in Lower(s)
  {
    LowerAt(s);
    forall i | 0 <= i < |s| ensures Lower(s)[i] != '@' { LowerCharKeeps(s[i]); }
  }

  /** An address whose ends are not white space keeps its local part (before
      the last '@') and has its domain lower-cased. */
  lemma NormalizeEmailParts(local: string, domain: string)
    requires local == [] || !IsSpace(local[0])
    requires domain == [] || !IsSpace(domain[|domain| - 1])
    requires '@' !in domain
    ensures NormalizeEmail(local + "@" + domain) == local + "@" + Lower(domain)
  {
    var s := local + "@" + domain;
    AddressUnstripped(local, domain);
    AddressLastAt(local, domain);
    assert NormalizeEmail(s) == NormalizeStripped(s, s);
  }

  /** An address whose ends are not white space is left alone by Strip. */
  lemma AddressUnstripped(local: string, domain: string)
    requires local == [] || !IsSpace(local[0])
    requires domain == [] || !IsSpace(domain[|domain| - 1])
    ensures Strip(local + "@" + domain) == local + "@" + domain
  {
    var s := local + "@" + domain;
    assert s[0] == (if local == [] then '@' else local[0]);
    assert s[|s| - 1] == (if domain == [] then '@' else domain[|domain| - 1]);
    StripUnchanged(s);
  }

  /** The last '@' of an address whose domain holds none is the one before the domain. */
  lemma AddressLastAt(local: string, domain: string)
    requires '@' !in domain
    ensures var s := local + "@" + domain;
      LastIndex(s, '@') == Some(|local|) && s[..|local|] == local && s[|local| + 1..] == domain
  {
    var s := local + "@" + domain;
    assert s[..|local|] == local && s[|local|] == '@' && s[|local| + 1..] == domain;
    LastIndexAt(s, '@', |local|);
  }

  /** Normalizing an already normalized address changes nothing. */
  lemma NormalizeEmailIdempotent(email: string)
    ensures NormalizeEmail(NormalizeEmail(email)) == NormalizeEmail(email)
  {
    var stripped := Strip(email);
    match LastIndex(stripped, '@')
    case None =>
    case Some(i) =>
      StripEnds(email);
      LastIndexIsLast(stripped, '@');
      var local, domain := stripped[..i], stripped[i + 1..];
      assert NormalizeEmail(email) == local + "@" + Lower(domain);
      LowerNoAt(domain);
      if domain != [] {
        LowerAt(domain);
        assert domain[|domain| - 1] == stripped[|stripped| - 1];
        LowerCharKeeps(domain[|domain| - 1]);
      }
      if local != [] {
        assert local[0] == stripped[0];
      }
      NormalizeEmailParts(local, Lower(domain));
      LowerIdempotent(domain);
  }

  /** The keyword arguments the User constructor accepts besides username,
      each with a value of its field's kind. */
  predicate AcceptedField(name: string, value: FieldValue)
  {
    || (name == "first_name" && value.TextValue?)
    || (name == "last_name" && value.TextValue?)
    || (name == "is_verified" && value.FlagValue?)
  }

  /** `self.model(username=username, **extra_fields)`: a fresh, unsaved User
      carrying the model defaults for whatever extra_fields does not give.
      The time stamps are filled in by the first save. */
  function InitUser(id: UserId, username: string, extra: map<string, FieldValue>): Result<User, ModelError>
  {
    var rejected := Rejected(extra);
    if rejected != {} then Err(RejectedFields(rejected))
    else Ok(User(id, username, TextField(extra, "first_name"), TextField(extra, "last_name"), "",
                 "is_verified" in extra && extra["is_verified"] == FlagValue(true), 0, 0))
  }

  /** The keyword arguments the constructor refuses. */
  function Rejected(extra: map<string, FieldValue>): (r: set<string>)
    ensures r <= extra.Keys
  {
    set k | k in extra && !AcceptedField(k, extra[k])
  }

  /** is_staff and is_superuser, which User does not have, are always refused;
      the names the serializer hands over, as text, never are; with none
      refused every argument is one of first_name, last_name and is_verified. */
  lemma RejectedNames(extra: map<string, FieldValue>)
    ensures "is_staff" in extra ==> "is_staff" in Rejected(extra)
    ensures "is_superuser" in extra ==> "is_superuser" in Rejected(extra)
    ensures forall k :: k in extra && (k == "first_name" || k == "last_name") && extra[k].TextValue? ==>
              k !in Rejected(extra)
    ensures Rejected(extra) == {} ==> extra.Keys <= {"first_name", "last_name", "is_verified"}
  {
    if Rejected(extra) == {} {
      forall k | k in extra ensures k in {"first_name", "last_name", "is_verified"} {
        assert k !in Rejected(extra);
      }
    }
  }

  /** The text given for a character field, or the field's default "". */
  function TextField(extra: map<string, FieldValue>, name: string): string
  {
    if name in extra && extra[name].TextValue? then extra[name].text else ""
  }

  /** `if password: user.set_password(password)`. */
  function WithPassword(ext: Externals, u: User, password: Option<string>): User
  {
    if password.Some? && password.value != "" then u.(password := ext.hash(password.value)) else u
  }

  /** The unique constraint on username and the primary key on id hold for a new row. */
  predicate Insertable(users: map<string, User>, u: User)
  {
    u.username !in users && forall k :: k in users ==> users[k].id != u.id
  }

  /** The row a first save writes: account_created (auto_now_add) and
      account_updated (auto_now) both take the time of the save. */
  function Saved(u: User, now: Instant): User
  {
    u.(accountCreated := now, accountUpdated := now)
  }

  /** CustomUserManager.create_user: the user to insert into `users`, or the error it raises. */
  function CreateUserRecord(users: map<string, User>, ext: Externals, username: string,
                            password: Option<string>, extra: map<string, FieldValue>,
                            id: UserId, now: Instant): Result<User, ModelError>
  {
    if username == "" then Err(EmptyUsername)
    else match InitUser(id, NormalizeEmail(username), extra)
      case Err(e) => Err(e)
      case Ok(u) =>
        var u' := WithPassword(ext, u, password);
        if Insertable(users, u') then Ok(Saved(u', now)) else Err(IntegrityError)
  }

  /** What a created user looks like: normalized username, defaults, hashed
      password, both stamps at the time of the save, and no clash with a stored user. */
  lemma CreateUserRecordResult(users: map<string, User>, ext: Externals, username: string,
                               password: Option<string>, extra: map<string, FieldValue>,
                               id: UserId, now: Instant)
    requires CreateUserRecord(users, ext, username, password, extra, id, now).Ok?
    ensures var u := CreateUserRecord(users, ext, username, password, extra, id, now).value;
      && username != ""
      && u.id == id && u.username == NormalizeEmail(username)
      && u.username !in users
      && (forall k :: k in users ==> users[k].id != id)
      && u.isVerified == ("is_verified" in extra && extra["is_verified"] == FlagValue(true))
      && ("first_name" in extra ==> extra["first_name"] == TextValue(u.firstName))
      && ("first_name" !in extra ==> u.firstName == "")
      && ("last_name" in extra ==> extra["last_name"] == TextValue(u.lastName))
      && ("last_name" !in extra ==> u.lastName == "")
      && (forall k :: k in extra ==> k in {"first_name", "last_name", "is_verified"})
      && u.password == (if password.Some? && password.value != "" then ext.hash(password.value) else "")
      && u.accountCreated == now && u.accountUpdated == now
  {
    forall k | k in extra ensures AcceptedField(k, extra[k]) {
      assert k !in Rejected(extra);
    }
  }

  /** The errors of create_user, in the order it meets them. */
  lemma CreateUserRecordErrors(users: map<string, User>, ext: Externals, username: string,
                               password: Option<string>, extra: map<string, FieldValue>,
                               id: UserId, now: Instant)
    ensures var r := CreateUserRecord(users, ext, username, password, extra, id, now);
      && (username == "" <==> r == Err(EmptyUsername))
      && (username != "" && (exists k :: k in extra && !AcceptedField(k, extra[k])) <==> r.Err? && r.error.RejectedFields?)
      && (r == Err(IntegrityError) ==>
            username != "" && (NormalizeEmail(username) in users || exists k :: k in users && users[k].id == id))
  {
    if exists k :: k in extra && !AcceptedField(k, extra[k]) {
      var k :| k in extra && !AcceptedField(k, extra[k]);
      assert k in Rejected(extra);
    }
  }

  /** CustomUserManager.create_superuser's keyword arguments: is_staff and
      is_superuser default to true. */
  function SuperuserFields(extra: map<string, FieldValue>): (r: map<string, FieldValue>)
    ensures "is_staff" in r && "is_superuser" in r
    ensures forall k :: k in extra ==> k in r && r[k] == extra[k]
    ensures forall k :: k in r && k !in extra ==> k in {"is_staff", "is_superuser"} && r[k] == FlagValue(true)
  {
    var withStaff := if "is_staff" in extra then extra else extra["is_staff" := FlagValue(true)];
    if "is_superuser" in withStaff then withStaff else withStaff["is_superuser" := FlagValue(true)]
  }

  /** CustomUserManager.create_superuser. */
  function CreateSuperuserRecord(users: map<string, User>, ext: Externals, username: string,
                                 password: Option<string>, extra: map<string, FieldValue>,
                                 id: UserId, now: Instant): Result<User, ModelError>
  {
    CreateUserRecord(users, ext, username, password, SuperuserFields(extra), id, now)
  }

  /** The User model has neither an is_staff nor an is_superuser field, so the
      constructor rejects them and create_superuser never creates anyone. */
  lemma CreateSuperuserAlwaysFails(users: map<string, User>, ext: Externals, username: string,
                                   password: Option<string>, extra: map<string, FieldValue>,
                                   id: UserId, now: Instant)
    ensures var r := CreateSuperuserRecord(users, ext, username, password, extra, id, now);
      r.Err? && (username != "" ==> r.error.RejectedFields? && "is_staff" in r.error.names)
  {
    var fields := SuperuserFields(extra);
    assert "is_staff" in Rejected(fields);
  }

  /** The life of a verification link in seconds. */
  const VERIFICATION_WINDOW: nat := 120

  /** UserVerification's expires_at default. `timezone.now() + 2 minutes` is
      evaluated once, when the class body runs at `loadTime`, so every record
      created without an explicit value shares this one instant. */
  function DefaultExpiry(loadTime: Instant): Instant
  {
    loadTime + VERIFICATION_WINDOW
  }

  /** A UserVerification created with its defaults at `now` (sent_at is
      auto_now_add, is_used defaults to false). */
  function NewVerification(userId: UserId, code: string, now: Instant, loadTime: Instant): Verification
  {
    Verification(userId, code, now, DefaultExpiry(loadTime), false)
  }

  /** As written, a record created more than two minutes after the class was
      loaded is already expired when it is created. */
  lemma DefaultExpiryIsStale(userId: UserId, code: string, now: Instant, loadTime: Instant)
    requires now > loadTime + VERIFICATION_WINDOW
    ensures NewVerification(userId, code, now, loadTime).expiresAt < now
    ensures !NewVerification(userId, code, now, loadTime).isUsed
  {
  }

  /** The default the comment at the field describes: two minutes from each record's creation. */
  function NewVerificationPerRecord(userId: UserId, code: string, now: Instant): Verification
  {
    Verification(userId, code, now, now + VERIFICATION_WINDOW, false)
  }

  /** With the per-record default a fresh link is unused and counts as
      unexpired (expires_at < now fails) for exactly two minutes. */
  lemma PerRecordExpiryWindow(userId: UserId, code: string, now: Instant, t: Instant)
    ensures var v := NewVerificationPerRecord(userId, code, now);
      !v.isUsed && (now <= t ==> (!(v.expiresAt < t) <==> t <= now + VERIFICATION_WINDOW))
  {
  }
}
