# Account service model

A Dafny model of a small Django account service. The service has five endpoints:

- `healthz` and `ping` report liveness.
- `v1/user` creates an account.
- `v1/user/self` reads or updates the caller's own account, behind HTTP Basic credentials.
- `v1/verify` redeems an e-mail verification code.

Every request passes three middleware before the URL table picks a view.

The database and the Pub/Sub topic become one abstract store, the class `Store.AccountStore`. It holds three fields:

- the user rows, keyed by stored username;
- the verification rows, as a sequence;
- an outbox, the sequence of `verify_email` messages published so far.

Each handler that touches the store is a method over it. Each is proved equal to a specification function that maps the old store snapshot to the response and the new snapshot. The handlers' properties are lemmas about those functions.

What the model covers:

- the serializers: the public projection, the `%Y-%m-%dT%H:%M:%SZ` rendering with its parse round trip, validation, the update whitelist and partial update;
- the user manager;
- the record defaults;
- the route table;
- the structlog processor that renames `level` to `severity`.

`Service.Handle` composes the middleware chain and the views in the order of the `MIDDLEWARE` setting.

The model needs some things from outside. They are passed in as values:

- Library code: the password hasher, base64 and UTF-8 decoding, `json.loads` and the e-mail validator, gathered in `Externals.Externals`.
- The environment and the world: the clock, the uuid4 values drawn, the `DOMAIN_NAME` setting, whether a publish succeeds and whether the database probe passes, gathered in `Service.Environment`.

The model follows the code where the code and its documentation disagree. The documentation says a verification whose user no longer exists still succeeds. The code marks the record used, then reads `user.username` on `None` while logging, and so answers 500 (`views.py:593-614`). `Views.VerifyUserMissingOwner` states the 500.

## Model

| member | source | states |
|---|---|---|
| Views.HealthzOutcomes | myapp/views.py:24-60 | healthz gives 405 (Allow: GET) exactly for non-GET methods, 400 exactly for a GET with a body or a query string, and 200 with no content otherwise |
| Views.PingOutcomes | myapp/views.py:82-119 | ping has the same three outcomes; a clean GET answers {"message": "pong"} and the refusals have no content |
| Views.BodyCheckedFirst | myapp/views.py:25-42 | a GET with a body is refused with 400 whatever its query string, in both healthz and ping |
| Views.CheckCredentialsOutcomes | myapp/views.py:334-368 | after the credentials are read: an unknown user or a wrong password gives 401; the right password of an unverified user gives 403 (the flag is read only after the password passes); otherwise the stored user is returned; nothing raises; each direction is stated as an iff |
| Views.AuthenticateOutcomes | myapp/views.py:325-332 | a missing header, or one not starting "Basic ", gives 401 with its own message, and exactly then; a header that does not decode or has no ':' raises; readable credentials go on to the lookup |
| Views.AuthorizedIsStored | myapp/views.py:335-347 | an authorized caller is a stored, verified user, filed under its own username, and the request carries its password |
| Externals.CheckPasswordEmpty | myapp/views.py:336 | a password checks against its own hash, and never against an empty stored value (a user saved without a password) |
| Views.CredentialsSplitOnFirstColon | myapp/views.py:330-332 | the decoded value is split at its first ':' only, so a password that contains ':' is read back whole |
| Views.CreateUser | myapp/views.py:176-322 | the create_user method yields exactly the response and the new store that the create_user specification gives, and keeps the table constraints |
| Views.CreateUserRefusesEarly | myapp/views.py:185-197 | a non-POST gets 405 (Allow: POST), a body that is not a JSON object gets 400, and in both cases the store and the outbox are unchanged |
| Views.CreateUserExisting | myapp/views.py:200-234 | for a username stored under the raw text: a verified owner gets 400 and nothing changes; an unverified owner gets 400 and exactly one verify_email message {first_name, username, hostname, "v1/verify"} when the publish succeeds; no user is added |
| Views.CreateUserNew | myapp/views.py:236-273 | invalid data, or an insert the constraints refuse, gives 400 with nothing saved or published; otherwise the user is saved unverified, under the normalized username, holding the password's hash and stamped now; one message is published and 201 carries the public fields; if the publish fails the user stays stored and the answer is 400 |
| Views.UserInfo | myapp/views.py:371-509 | the user_info method yields exactly the response and the new store that the user_info specification gives, and keeps the table constraints |
| Views.UserInfoCredentialsFirst | myapp/views.py:380-383 | for GET and PUT the credentials are checked first: when they do not authorize, the body and the query string make no difference, the refusal is answered (400 when the check raised), and nothing changes |
| Views.UserInfoGet | myapp/views.py:385-414 | a GET never changes the store; an authorized GET with a body or a query string gets 400; a clean one gets 200 with the caller's public fields |
| Views.UserInfoRejectsUnexpectedKeys | myapp/views.py:425-437 | a PUT naming a key outside first_name, last_name and password gets 400 and the store is unchanged |
| Views.UserInfoWrites | myapp/views.py:380-470 | a method other than GET or PUT gives 405 allowing GET, PUT and changes nothing; an authorized PUT is answered by the PUT branch; only an authorized PUT answered 204 changes the store; every other answer leaves it unchanged; no user appears or vanishes and the constraints hold |
| Views.UpdateSelfWrites | myapp/views.py:415-449 | the answer is 204 exactly when there is no query and the body is a JSON object with no unexpected keys whose fields validate; every other PUT gives a plain 400 and changes nothing; on 204 only the caller's row changes: the given names are taken, a given password is stored hashed, account_updated becomes now, and the id, username, verified flag and creation stamp stay |
| Views.RecordFor | myapp/views.py:533-535 | a record is found exactly when the code has a segment between its first and second '/' and exactly one record holds that segment; the record found is that one. No match, or several (`objects.get` raising), finds none |
| Views.VerifyUser | myapp/views.py:512-614 | the verify_user method yields exactly the response and the new store that the verify_user specification gives, and keeps the table constraints |
| Views.VerifyUserOutcomes | myapp/views.py:521-603 | a missing or empty code gives 400; no single record for the segment gives 404; an expired record (checked first) or a used one gives 400 "Verification link has expired"; all of these change nothing; an unexpired, unused record always gives 200 or 500, and only such a record does; the record then becomes used, and the answer is 200 exactly when its owner exists, with that owner now verified; otherwise it is 500 |
| Views.VerifyUserNoSoleRecord | myapp/views.py:533-554 | a code whose segment matches no record, or several, is answered 404 "Invalid verification code" and nothing changes |
| Views.VerifyUserDuplicateCode | myapp/views.py:534-554 | when two records share the requested code, the request is answered 404 and nothing changes (the code column is not unique) |
| Views.VerifyUserMonotonic | myapp/views.py:575-584 | redemption only sets flags: no record or user appears or vanishes; codes, owners and expiries stay; a used record stays used; a verified user stays verified; the outbox is untouched |
| Views.RedeemMonotonic | myapp/views.py:556-584 | the same frame for the redemption of one record after the lookup |
| Views.VerifyUserSingleUse | myapp/views.py:566-575 | after a redemption that answered 200 or 500, the same request at any later time gets 400 and changes nothing |
| Views.VerifyUserMissingOwner | myapp/views.py:593-614 | a redeemable record whose owner is gone is marked used and the answer is 500 |
| Models.CreateUserRecordResult | myapp/models.py:9-20 | a created user has a non-empty given username, stored normalized, with the given id and no clash with a stored username or id; fields not given take their defaults; the password is hashed only when truthy; both stamps are the time of the save |
| Models.CreateUserRecordErrors | myapp/models.py:13-19 | an empty username raises ValueError, and exactly then; otherwise an unknown keyword raises TypeError, and exactly then; an integrity error means that the normalized username or the id is taken |
| Models.NormalizeEmailParts | myapp/models.py:15 | normalize_email keeps the part before the last '@' and lower-cases the ASCII letters of the domain |
| Models.NormalizeEmailIdempotent | myapp/models.py:15 | normalizing a normalized username changes nothing |
| Models.RejectedNames | myapp/models.py:16-28 | the model constructor always refuses is_staff and is_superuser (so create_superuser never succeeds), never refuses first_name or last_name given as text, and accepts a set of extra arguments only when they are among first_name, last_name and is_verified |
| Models.SuperuserFields | myapp/models.py:26-27 | is_staff and is_superuser are set to true unless the caller gave them; every given argument is kept |
| Models.CreateSuperuserAlwaysFails | myapp/models.py:22-28 | create_superuser never creates a user: User has no is_staff field, so the constructor raises |
| Models.DefaultExpiryIsStale | myapp/models.py:56 | a verification record created with the default more than two minutes after the class was loaded is already expired at creation |
| Models.PerRecordExpiryWindow | myapp/models.py:56-57 | with a per-record default, a new record is unused and counts as unexpired for exactly two minutes |
| Store.InsertKeepsValid | myapp/models.py:32-33 | inserting a row under an unused username and an unused id keeps usernames unique and ids distinct |
| Store.SaveKeepsValid | myapp/models.py:32-33 | rewriting a stored row under its own username and id keeps the constraints and the set of usernames |
| Store.UserKeyById | myapp/views.py:580-581 | the lookup by id finds a row with that id, and finds none exactly when no row has it |
| Store.UserKeyByIdUnique | myapp/views.py:581 | with distinct ids, the row found by id is the only one with that id |
| Store.Matching | myapp/views.py:535 | the rows matched by a code are exactly the rows holding that code |
| Store.MatchingIncreasing | myapp/views.py:535 | the matches are listed once each, in table order |
| Store.MatchingSole | myapp/views.py:535 | exactly one row matches a code exactly when one and only one record holds it, and that row is the one matched |
| Store.AccountStore.constructor | myapp/models.py:31-57 | a store over valid existing tables, with nothing published |
| Store.AccountStore.Insert | myapp/models.py:19 | the first save inserts exactly when the username and the id are free; otherwise nothing changes |
| Store.AccountStore.SaveUser | myapp/views.py:583-584 | a later save rewrites one stored row and keeps the constraints |
| Store.AccountStore.CreateUser | myapp/models.py:9-20 | the manager's steps give exactly the manager's result, and the user is inserted exactly when it succeeds |
| Store.AccountStore.CreateSuperuser | myapp/models.py:22-28 | the defaults are filled in and create_user is called; the result is always an error and nothing is stored |
| Store.AccountStore.MarkUsed | myapp/views.py:575-576 | the one record becomes used and nothing else changes |
| Store.AccountStore.Publish | myapp/views.py:230 | a delivered message is appended to the outbox; otherwise nothing is sent |
| Store.AccountStore.FindVerifications | myapp/views.py:535 | the loop over the table returns exactly the matching rows, in order |
| Store.AccountStore.FindUserById | myapp/views.py:581 | the loop over the rows finds exactly the row with the id, when one exists |
| Serializers.Represent | myapp/serializers.py:5-11 | the representation never holds the password or the verified flag; every field is a string |
| Serializers.RepresentKeys | myapp/serializers.py:11 | the representation holds exactly id, first_name, last_name, username, account_created and account_updated |
| Serializers.RepresentIgnoresSecrets | myapp/serializers.py:11 | the representation does not depend on the password or the verified flag |
| Serializers.ReadBackRepresent | myapp/serializers.py:6-11 | reading a representation back recovers every public field, the two stamps included, to the second |
| Serializers.ValidateChar | myapp/models.py:33-36 | an accepted value is non-empty, holds no NUL, fits the field's max_length and came from a string or an integer |
| Serializers.ValidateCharKeeps | myapp/models.py:33-36 | a string with no surrounding white space that fits is accepted unchanged |
| Serializers.ValidateCharStable | myapp/models.py:33-36 | the text a string is accepted as is accepted again unchanged: trimming is done once |
| Serializers.ValidateCharRefusesBlank | myapp/models.py:33-36 | an empty or all-white-space value is refused |
| Serializers.ValidateCreateAccepts | myapp/serializers.py:50-55 | creation data are accepted exactly when username, first_name, last_name and password are present and valid and the username is an e-mail address not already stored; read-only and unknown keys make no difference |
| Serializers.CreateNeedsUsername | myapp/serializers.py:50-55 | data without a username are refused |
| Serializers.CreateFromValidatedResult | myapp/serializers.py:57-60 | a validated creation can fail only on the unique constraints; on success the user has the given names, is unverified and checks against the given password |
| Serializers.WhitelistedMembers | myapp/serializers.py:30-35 | the whitelist keeps exactly the fields named first_name, last_name or password |
| Serializers.WhitelistOfMetaFields | myapp/serializers.py:21-35 | the serializer's own fields pass the whitelist whole |
| Serializers.ExcludeOtherFields | myapp/serializers.py:30-35 | the loop as written keeps every field when all are whitelisted, and raises RuntimeError exactly when some field is outside the whitelist, because it pops from the dict it is iterating over |
| Serializers.WhitelistedWhole | myapp/serializers.py:33-35 | the whitelist keeps a field list whole exactly when every field in it is whitelisted, which is when the loop as written does not raise |
| Serializers.ExcludeOtherFieldsOverCopy | myapp/serializers.py:33-35 | the loop as intended, over a copy of the keys, keeps exactly the whitelisted fields, in order |
| Serializers.ExclusionRaisesOnExtraField | myapp/serializers.py:33-35 | on the fields ["x", "first_name"] the intended loop keeps ["first_name"], while the loop as written raises |
| Serializers.ValidateUpdate | myapp/serializers.py:18-28 | validated update data name only the three update fields, only fields present in the input, and hold no empty value |
| Serializers.ValidateUpdateAccepts | myapp/serializers.py:24-28 | update data are accepted exactly when every present field is valid (all three are optional), and every present field is kept |
| Serializers.UpdateRefusesEmptyFirstName | myapp/serializers.py:24-28 | an empty first_name makes an update invalid |
| Serializers.Update | myapp/serializers.py:37-46 | the setattr loop, then set_password, then the save, give the updated user |
| Serializers.AssignedFields | myapp/serializers.py:38-40 | the setattr loop gives a named field that is present in the data its validated value, and leaves every other field alone |
| Serializers.UpdateIsPartial | myapp/serializers.py:37-46 | fields left out keep their old values; the identity, username, verified flag and creation stamp never change; account_updated becomes the time of the save |
| Serializers.UpdateHashesPassword | myapp/serializers.py:42-44 | a password given on update is stored as its hash, and the user then checks against it |
| Timestamps.FormatWellFormed | myapp/serializers.py:6-7 | every rendering is laid out as YYYY-MM-DDTHH:MM:SSZ, zero-padded |
| Timestamps.ParseFormat | myapp/serializers.py:6-7 | parsing a rendering of a valid date and time with a four-digit year gives that date and time back |
| Timestamps.FormatParse | myapp/serializers.py:6-7 | every string that parses is the rendering of what it parses to |
| Timestamps.ToDateTimeLossless | webapp/settings.py:104-105 | the UTC calendar conversion recovers every instant |
| Timestamps.FormatInstantRoundTrip | myapp/serializers.py:6-7 | a rendered instant before the year 10000 reads back to the same instant |
| Text.SplitFirstJoin | myapp/views.py:332 | `split(':', 1)` undoes joining a ':'-free username to any password |
| Text.SecondSegmentJoin | myapp/views.py:534 | `split('/')[1]` is the text between the first and the second '/' |
| Http.QueryGet | myapp/views.py:521 | request.GET.get gives None exactly when the name is absent, and otherwise a value given for it |
| Middleware.AssignRequestId | myapp/middleware.py:11-13 | the request gets the drawn id and is otherwise unchanged |
| Middleware.CustomHeadersOverwrite | myapp/middleware.py:25-30 | the three headers take their fixed values, overwriting any earlier value; the status, the body and every other header are kept; applying it twice is the same as once |
| Middleware.ResponseObject.SetHeader | myapp/middleware.py:27-29 | a header assignment sets that one header and nothing else |
| Middleware.AddCustomHeaders | myapp/middleware.py:25-30 | the three in-place assignments give the response with the fixed headers |
| Middleware.ProbeFailed | myapp/middleware.py:42-63 | after a failed probe the answer is 503 when the request carries a request_id; without one, the logging raises |
| Middleware.DatabaseCheckOutcomes | myapp/middleware.py:37-68 | a passed probe hands on the downstream response unchanged; a failed one answers 503 whatever downstream would have answered |
| Urls.FirstMatch | webapp/urls.py:6-15 | the view found belongs to the first pattern that matches; there is none exactly when no pattern matches |
| Urls.ResolveNamedRoutes | webapp/urls.py:7-11 | each of the five named paths leads to its own view; the catch-all shadows none of them |
| Urls.ResolveInjective | webapp/urls.py:9-10 | a named view is reached from its own path and from no other, so v1/user and v1/user/self never collide |
| Urls.ResolveOtherPaths | webapp/urls.py:14 | any other path reaches the 404 catch-all, or no pattern at all, and never a named view |
| StructlogConfig.RenameLevelToSeverity | utils/structlog_config.py:4-7 | the dict is renamed in place and the same object is returned |
| StructlogConfig.RenamedEntries | utils/structlog_config.py:5-6 | with 'level' present, 'level' is removed and 'severity' takes its value, overwriting any earlier one; without 'level' nothing changes; every other key is kept |
| StructlogConfig.RenamedIdempotent | utils/structlog_config.py:4-7 | renaming twice is the same as renaming once |
| Service.Dispatch | webapp/urls.py:6-15 | routing and the view yield exactly the response and the store given by the view that the path resolves to (404 when it resolves to none) |
| Service.Handle | webapp/settings.py:31-33 | the chain runs in order: request id, custom headers, database check, then the view; the response and the store are exactly those of the chain's specification |
| Service.HandleDatabaseDown | myapp/middleware.py:37-63 | with the database down, every request gets 503 with the three fixed headers and nothing changes; the request id is set before the probe, so logging it never raises |
| Service.HandleDatabaseUp | myapp/middleware.py:11-18 | with the database up, the view's status and body go out unchanged, as do all headers besides the fixed three; the view alone decides the new store |
| Service.HandleAddsHeaders | webapp/settings.py:31-33 | every response carries the three fixed headers, including 503 and 404 answers |
| Service.HandleUnknownPath | webapp/urls.py:14 | a path other than the five named ones reaches no view: 404 (503 with the database down) and nothing changes |
| Service.HandleKeepsInvariants | myapp/views.py:176-614 | across any request, usernames stay unique and ids distinct; no user disappears; no verification record appears or vanishes; a used record stays used; a verified user stays verified |
| Service.DispatchKeepsInvariants | webapp/urls.py:6-15 | each view keeps those invariants |
| Service.UserInfoKeepsInvariants | myapp/views.py:371-509 | user_info keeps them: it rewrites only the caller's row, under the same username and id |
| Service.CreateUserKeepsInvariants | myapp/views.py:176-322 | create_user keeps them: it only adds a user under a free username and a free id, leaves every stored row as it was and creates no verification record |
| Service.NewUserKeepsInvariants | myapp/views.py:236-273 | the branch of create_user that inserts keeps the constraints and every stored row |

## Findings

| source | as written | input that shows it | evidently intended | confidence | as-written member | corrected member |
|---|---|---|---|---|---|---|
| myapp/models.py:56 | the expires_at default `timezone.now() + timedelta(minutes=2)` is evaluated once, when the class body runs, so every record shares one expiry instant | any record created more than 120 seconds after the module was loaded | each record expires two minutes after its own creation, as the comment on the field says | not executed | Models.DefaultExpiryIsStale | Models.PerRecordExpiryWindow |
| myapp/serializers.py:33-35 | UpdateUserSerializer.__init__ pops from `self.fields` while iterating over `self.fields.keys()`, a live view of the same dict, so the next iteration step raises RuntimeError after any pop | a serializer whose fields include one outside first_name, last_name and password, such as ["x", "first_name"] | iterate over a copy of the keys, dropping every field outside the whitelist and keeping the rest | not executed | Serializers.ExcludeOtherFields | Serializers.ExcludeOtherFieldsOverCopy |

UpdateUserSerializer only ever starts from its own Meta fields, which are all whitelisted (Serializers.WhitelistOfMetaFields). On them the loop as written and the loop over a copy both keep every field, so the rest of the model is the same under either. user_info calls the loop as written.

No live code creates verification records. Both defaults are therefore modelled as constructors of a record, and the rest of the model treats records as pre-existing rows.

## Left out

- Pub/Sub: the network call is not modelled. A publish either appends its message to the outbox or fails and raises. The `delivered` flag chooses which. A publisher that was never constructed, because PROJECT_ID is unset, behaves like a failing one.
- Password hashing: the BCryptSHA256 hasher and its salt are not modelled. Hashing is a function value `hash`, and a password check compares `hash(raw)` with the stored value. An empty stored value matches no password.
- Models.NormalizeEmailParts: the domain is lower-cased only in its ASCII letters A-Z (Text.Lower). Python's `str.lower` folds all of Unicode, so a domain such as "É" becomes "é" in Django but stays "É" here. Full Unicode case mapping (which can change a string's length) is not modelled.
- Models.Rejected: the model constructor is modelled as accepting only the keyword arguments the service's callers pass: first_name and last_name as text, and is_verified as a flag. Django's `Model.__init__` also accepts the other User fields (id, username, password, account_created, account_updated, last_login) with values of any kind. No caller in the service passes those. is_staff and is_superuser are refused in both.
- Views.LookupText: a list or object given as the username of a create request is looked up by Django as its Python repr. The model does not render reprs and finds no user for it.
- Library calls: base64 and UTF-8 decoding, `json.loads` and Django's EmailValidator are function values that are handed in. Their own behaviour is not modelled.
- JSON floats are not modelled: numbers are integers.
- Logging: every `logger` call is I/O and is left out. Two reads that logging makes are kept, because they raise:
  - `request.request_id` when the database probe fails;
  - `user.username` on `None` at `myapp/views.py:598`.
- `configure_structlog` and its processor chain are left out. Only `rename_level_to_severity` is modelled.
- ORM failures other than the unique constraints are not modelled. This covers the "Table 'webApp.myapp_user' doesn't exist" branches that answer 500 in create_user and user_info. No modelled path raises such an error, so those branches are unreachable in the model.
- Django's own middleware (security, sessions, common, authentication, messages at `webapp/settings.py:26-30`) is not modelled.
- Django's error pages are not modelled. This covers the body of its 404 page for a path with an inner newline, and the 500 response for an exception that escapes a middleware. The latter is modelled as `Middleware.Outcome.Escaped`. The catch-all `^.*$` is matched as Python's `re.search` matches it, so a path whose only newline is its last character reaches the catch-all. Newer Django releases match an endpoint pattern ending in '$' in full, and there such a path matches nothing and gets Django's own 404 page; the status is 404 either way.
- The MySQL collation is not modelled: username lookups and the `verification_code` lookup at `myapp/views.py:535` compare strings exactly. Under a case-insensitive collation "ABC" would find "abc", and two codes differing only in case would make `objects.get` raise.
- uuid4 is not modelled as random. The ids it draws are parameters. Their uniqueness is not assumed: the insert checks it, and a clash raises an integrity error.
- `timezone.now()` is a parameter `now`, in whole seconds.
- Timestamps.FormatInstant: instants after the year 9999 have no Python datetime. For those, the rendering keeps only the last four digits of the year, so the round-trip lemmas require an earlier year.
- Concurrency is not modelled: requests are handled one at a time.
- The commented-out helpers `generate_unique_verification_code` and `track_email` (`myapp/views.py:131-173`) are dead code and are not modelled. For the same reason no operation creates a verification record.
- `manage.py`, `myapp/admin.py` and the rest of the settings are startup wiring and are not part of this model. Of the settings, only the middleware order and the UTC time zone are used.
