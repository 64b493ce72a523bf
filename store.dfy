/** The state the handlers read and write: the user table, the verification
    table and the Pub/Sub topic, the last one as the sequence of messages
    published so far. */
module Store {
  import opened Wrappers
  import opened Timestamps
  import opened Externals
  import opened Models

  /** The "verify_email" message: first name, username, the DOMAIN_NAME
      environment value (None when unset) and the verification API path. */
  datatype Message = Message(topic: string, firstName: string, username: string,
                             hostname: Option<string>, verificationApi: string)

  const VERIFY_TOPIC := "verify_email"
  const VERIFICATION_API := "v1/verify"

  /** The message create_user publishes about a user. */
  function VerifyMessage(u: User, hostname: Option<string>): Message
  {
    Message(VERIFY_TOPIC, u.firstName, u.username, hostname, VERIFICATION_API)
  }

  /** A snapshot of the store. */
  datatype StoreState = StoreState(users: map<string, User>, verifications: seq<Verification>, outbox: seq<Message>)

  /** The table constraints: every row is filed under its own username (which is
      therefore unique), and no two rows share an id. */
  predicate ValidUsers(users: map<string, User>)
  {
    && (forall k :: k in users ==> users[k].username == k)
    && (forall k1, k2 :: k1 in users && k2 in users && users[k1].id == users[k2].id ==> k1 == k2)
  }

  /** Inserting a row that the constraints admit keeps them. */
  lemma InsertKeepsValid(users: map<string, User>, u: User)
    requires ValidUsers(users) && Insertable(users, u)
    ensures ValidUsers(users[u.username := u])
  {
  }

  /** Rewriting a stored row under its own username and id keeps the constraints. */
  lemma SaveKeepsValid(users: map<string, User>, u: User)
    requires ValidUsers(users) && u.username in users && users[u.username].id == u.id
    ensures ValidUsers(users[u.username := u]) && users[u.username := u].Keys == users.Keys
  {
  }

  /** The key of the user with this id, if there is one. */
  ghost function UserKeyById(users: map<string, User>, id: UserId): (r: Option<string>)
    ensures r.None? <==> forall k :: k in users ==> users[k].id != id
    ensures r.Some? ==> r.value in users && users[r.value].id == id
  {
    if exists k :: k in users && users[k].id == id then
      var k :| k in users && users[k].id == id; Some(k)
    else None
  }

  /** With unique ids the user with an id is determined. */
  lemma UserKeyByIdUnique(users: map<string, User>, id: UserId, k: string)
    requires ValidUsers(users) && k in users && users[k].id == id
    ensures UserKeyById(users, id) == Some(k)
  {
  }

  /** The indices of the verification records with this code, in table order. */
  function Matching(vs: seq<Verification>, code: string): (r: seq<nat>)
    ensures forall j :: 0 <= j < |r| ==> r[j] < |vs| && vs[r[j]].code == code
    ensures forall i :: 0 <= i < |vs| && vs[i].code == code ==> i in r
  {
    if vs == [] then []
    else
      var init := vs[..|vs| - 1];
      var earlier := Matching(init, code);
      assert forall i :: 0 <= i < |init| ==> init[i] == vs[i];
      if vs[|vs| - 1].code == code then earlier + [|vs| - 1] else earlier
  }

  /** Matching lists each index once, in increasing order. */
  lemma {:induction false} MatchingIncreasing(vs: seq<Verification>, code: string)
    ensures forall a, b :: 0 <= a < b < |Matching(vs, code)| ==> Matching(vs, code)[a] < Matching(vs, code)[b]
    ensures |Matching(vs, code)| >= 2 ==> Matching(vs, code)[0] < Matching(vs, code)[1]
  {
    if vs != [] {
      MatchingIncreasing(vs[..|vs| - 1], code);
    }
  }

  /** Record i is the one and only record holding this code. */
  ghost predicate SoleMatch(vs: seq<Verification>, code: string, i: int)
  {
    0 <= i < |vs| && vs[i].code == code && forall j :: 0 <= j < |vs| && vs[j].code == code ==> j == i
  }

  /** Exactly one index is matched precisely when exactly one record holds the
      code (`objects.get` finds it); zero or several matches mean there is none. */
  lemma MatchingSole(vs: seq<Verification>, code: string)
    ensures |Matching(vs, code)| == 1 <==> exists i :: SoleMatch(vs, code, i)
    ensures |Matching(vs, code)| == 1 ==> SoleMatch(vs, code, Matching(vs, code)[0])
  {
    var found := Matching(vs, code);
    if exists i :: SoleMatch(vs, code, i) {
      var i :| SoleMatch(vs, code, i);
      assert i in found;
      MatchingIncreasing(vs, code);
      assert forall a :: 0 <= a < |found| ==> found[a] == i;
    }
    if |found| == 1 {
      assert forall j :: 0 <= j < |vs| && vs[j].code == code ==> j == found[0] by {
        forall j | 0 <= j < |vs| && vs[j].code == code ensures j == found[0] {
          assert j in found;
        }
      }
      assert SoleMatch(vs, code, found[0]);
    }
  }

  /** The store. Methods change exactly what the ORM call they stand for changes. */
  class AccountStore {
    var users: map<string, User>
    var verifications: seq<Verification>
    var outbox: seq<Message>

    function State(): StoreState
      reads this
    {
      StoreState(users, verifications, outbox)
    }

    predicate Valid()
      reads this
    {
      ValidUsers(users)
    }

    /** A store over existing tables, with nothing published yet. Verification
        records are only ever pre-existing rows: no live code creates them. */
    constructor(users: map<string, User>, verifications: seq<Verification>)
      requires ValidUsers(users)
      ensures Valid()
      ensures State() == StoreState(users, verifications, [])
    {
      this.users := users;
      this.verifications := verifications;
      this.outbox := [];
    }

    /** The INSERT of a first save: refused, changing nothing, when the username
        or the id is taken. */
    method Insert(u: User) returns (ok: bool)
      requires Valid()
      modifies this
      ensures Valid()
      ensures ok <==> Insertable(old(users), u)
      ensures users == (if ok then old(users)[u.username := u] else old(users))
      ensures verifications == old(verifications) && outbox == old(outbox)
    {
      ok := u.username !in users && forall k :: k in users ==> users[k].id != u.id;
      if ok {
        users := users[u.username := u];
      }
    }

    /** The UPDATE of a later save of a stored user (its username unchanged). */
    method SaveUser(u: User)
      requires Valid() && u.username in users && users[u.username].id == u.id
      modifies this
      ensures Valid()
      ensures users == old(users)[u.username := u]
      ensures verifications == old(verifications) && outbox == old(outbox)
    {
      users := users[u.username := u];
    }

    /** CustomUserManager.create_user: checks the username, normalizes it, builds
        the instance, sets a truthy password, then saves it once. */
    method CreateUser(ext: Externals, username: string, password: Option<string>,
                      extra: map<string, FieldValue>, id: UserId, now: Instant)
      returns (r: Result<User, ModelError>)
      requires Valid()
      modifies this
      ensures Valid()
      ensures r == CreateUserRecord(old(users), ext, username, password, extra, id, now)
      ensures users == (if r.Ok? then old(users)[r.value.username := r.value] else old(users))
      ensures verifications == old(verifications) && outbox == old(outbox)
    {
      if username == "" {
        return Err(EmptyUsername);
      }
      var normalized := NormalizeEmail(username);
      var init := InitUser(id, normalized, extra);
      if init.Err? {
        return Err(init.error);
      }
      var user := init.value;
      if password.Some? && password.value != "" {
        user := user.(password := ext.hash(password.value));
      }
      user := Saved(user, now);
      var ok := Insert(user);
      if ok {
        r := Ok(user);
      } else {
        r := Err(IntegrityError);
      }
    }

    /** CustomUserManager.create_superuser: the two flags default to true, then create_user. */
    method CreateSuperuser(ext: Externals, username: string, password: Option<string>,
                           extra: map<string, FieldValue>, id: UserId, now: Instant)
      returns (r: Result<User, ModelError>)
      requires Valid()
      modifies this
      ensures Valid()
      ensures r == CreateSuperuserRecord(old(users), ext, username, password, extra, id, now)
      ensures r.Err? && users == old(users)
      ensures verifications == old(verifications) && outbox == old(outbox)
    {
      var fields := extra;
      if "is_staff" !in fields {
        fields := fields["is_staff" := FlagValue(true)];
      }
      if "is_superuser" !in fields {
        fields := fields["is_superuser" := FlagValue(true)];
      }
      CreateSuperuserAlwaysFails(users, ext, username, password, extra, id, now);
      r := CreateUser(ext, username, password, fields, id, now);
    }

    /** `verification_obj.is_used = True; verification_obj.save()`. */
    method MarkUsed(i: nat)
      requires i < |verifications|
      modifies this
      ensures verifications == old(verifications)[i := old(verifications)[i].(isUsed := true)]
      ensures users == old(users) && outbox == old(outbox)
    {
      verifications := verifications[i := verifications[i].(isUsed := true)];
    }

    /** msg_publisher.send_message: the message joins the topic when the publish
        succeeds (`delivered`); otherwise nothing is sent and the call raises. */
    method Publish(m: Message, delivered: bool)
      modifies this
      ensures outbox == (if delivered then old(outbox) + [m] else old(outbox))
      ensures users == old(users) && verifications == old(verifications)
    {
      if delivered {
        outbox := outbox + [m];
      }
    }

    /** `UserVerification.objects.filter(verification_code=code)`: the matching rows. */
    method FindVerifications(code: string) returns (found: seq<nat>)
      ensures found == Matching(verifications, code)
    {
      found := [];
      var i := 0;
      while i < |verifications|
        invariant 0 <= i <= |verifications|
        invariant found == Matching(verifications[..i], code)
      {
        assert verifications[..i + 1][..i] == verifications[..i];
        if verifications[i].code == code {
          found := found + [i];
        }
        i := i + 1;
      }
      assert verifications[..|verifications|] == verifications;
    }

    /** `User.objects.filter(id=id).first()`: the key of the user with that id. */
    method FindUserById(id: UserId) returns (key: Option<string>)
      requires Valid()
      ensures key == UserKeyById(users, id)
    {
      var unseen := users.Keys;
      key := None;
      while unseen != {}
        invariant unseen <= users.Keys
        invariant key.None? ==> forall k :: k in users && k !in unseen ==> users[k].id != id
        invariant key.Some? ==> key.value in users && users[key.value].id == id
        decreases |unseen|
      {
        var k :| k in unseen;
        if users[k].id == id {
          key := Some(k);
        }
        unseen := unseen - {k};
      }
      if key.Some? {
        UserKeyByIdUnique(users, id, key.value);
      }
    }
  }
}
