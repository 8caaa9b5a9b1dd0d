# HTI module launch, modelled in Dafny

This project models the core of the GIDS HTI reference module: the part that validates a
module launch. Under HTI, a portal launches a module by posting a signed JSON Web Token
(RFC 7519) that carries a FHIR `task`. The module:

1. reads the token's issuer (`iss`) and key id (`kid`) without verifying anything;
2. accepts only issuers on the `HTI_ALLOWED_PORTALS` allow-list;
3. fetches the issuer's JWK Set (RFC 7517) at `<issuer>/.well-known/jwks.json` and picks the
   first key with the token's `kid`, giving it the RS512 algorithm when it names none;
4. decodes the token with that key, for its own host as audience and that issuer, requiring
   `aud`, `exp`, `iss` and `jti`;
5. refuses a `jti` it has seen before and records a new one;
6. answers the `task` claim.

Beside the launch it models:

- the treatment catalogue, synchronised lazily from YAML records into a table;
- the `AccessDenied` error with its JSON view, and the two session guards;
- the environment helpers of the configuration, with the built-in allow-list.

Layout, one module per file:

- `wrappers.dfy`: `Option` and `Result`.
- `json_values.dfy`: JSON values, and `Get`, which reads a key the way Python's `d.get(k)` and
  `d[k] if k in d else None` do. A JSON `null` reads as `None`, like a missing key.
- `text.dfy`: Python's string operations the core relies on. These are `split` on one
  character, `strip`, `startswith`/`endswith`, `lower` and `int`.
- `config.dfy`: `instance/config.py`.
- `security.dfy`: `application/security.py`.
- `treatment.dfy`: `application/treatment/services.py`.
- `hti.dfy`: `application/hti/services.py`, with the `JwtId` table of `application/hti/models.py`.

The launch is a pure specification, `Hti.LaunchOutcome`. It maps the table of seen `jti`
values and the inputs to the answer and the new table. The lemmas about the launch are proved
on this function. `Hti.Launch` is the imperative launch on a `JwtModelService` object, proved
equal to it. Inputs the code gets from outside are parameters:

- the token comes as its header and its claims;
- `fetch` stands for the HTTP fetch and parse of a JWK Set;
- `authentic` stands for the signature and clock checks inside `jwt.decode`;
- the environment is a map;
- the YAML file comes as its list of records.

## Model

| member | source | states |
|---|---|---|
| JsonValues.Get | application/hti/services.py:142-160 | a claim or header entry reads as `None` exactly when it is absent or `null`, and otherwise as its value |
| Text.StripLeft | application/hti/services.py:101 | `lstrip` drops a prefix made only of whitespace and keeps a suffix that does not start with whitespace |
| Text.StripRight | application/hti/services.py:101 | `rstrip` drops a suffix made only of whitespace and keeps a prefix that does not end with whitespace |
| Text.StripMeaning | application/hti/services.py:101 | `strip` keeps a contiguous slice of the input with only whitespace before and after it |
| Text.StripEnds | application/hti/services.py:101 | what `strip` returns is empty or neither starts nor ends with whitespace |
| Text.StripUnchanged | application/hti/services.py:101 | `strip` leaves alone a string that neither starts nor ends with whitespace |
| Text.Split | application/hti/services.py:100 | `split(',')` gives at least one part |
| Text.SplitPartsWithoutSeparator | application/hti/services.py:100 | no part of `split(',')` holds a comma |
| Text.JoinSplit | application/hti/services.py:100 | joining the parts of `split(',')` with commas gives back the input |
| Text.SplitJoin | application/hti/services.py:100 | splitting a comma-join of comma-free parts gives back those parts |
| Text.SplitFieldIff | application/hti/services.py:100 | a string is a part of the split exactly when it is a comma-free slice bounded by commas or the ends |
| Text.Lower | instance/config.py:26 | `lower` keeps the length and lowers each character |
| Text.LowerMatches | instance/config.py:26 | a lowered value equals a lower-case word exactly when it spells that word in any letter case |
| Text.ParseIntOfDigitGroup | application/treatment/services.py:47 | `int` of a digit group, underscores included, is its decimal value |
| Text.ParseIntRoundTrip | application/treatment/services.py:47 | `int(str(n)) == n` for every integer, negatives included (no digit limit; see Left out) |
| Text.ParseIntAfterSpace | application/treatment/services.py:47 | `int` skips a whitespace character before the digits, except the information separators U+001C to U+001F, which make it fail |
| Config.EnvGetStr | instance/config.py:8-15 | the value of a set variable, else the default |
| Config.EnvGetBoolMeaning | instance/config.py:18-26 | a set variable is true exactly when it spells `true`, `yes`, `1` or `y` in some letter case, and any other value is false; an unset variable gives the default |
| Config.EnvGetBoolUnrecognised | instance/config.py:25-26 | `on`, `no` and the empty string give false even when the default is true |
| Config.HtiAllowedPortals | instance/config.py:34-35 | the allow-list setting is the built-in three hosts when the variable is unset |
| Security.NewAccessDenied | application/security.py:12-19 | the status code is 403 unless one is given, which then replaces it; message and payload are kept |
| Security.AccessDenied.ToView | application/security.py:21-29 | the view always has `message` and `code` with the error's own values; without a payload these are its only keys; with one, every other payload entry is copied |
| Security.RequireSessionJson | application/security.py:32-45 | `AccessDenied('Forbidden', 403)` exactly when the session has no task, with view `{message, code}`; otherwise the view's own answer |
| Security.RequireSessionHtml | application/security.py:48-61 | an abort with 403 exactly when the session has no task; otherwise the view's own answer |
| Security.GuardFollowsLogin | application/security.py:37-43 | the guard refuses before login and after logout (task removed or `None`), and delegates once a task is stored |
| Treatments.ParseRecordsOk | application/treatment/services.py:46-47 | converting the records succeeds exactly when every id converts, giving one row per record in order |
| Treatments.ParseRecordsError | application/treatment/services.py:46-47 | a failed conversion names the first record whose id does not convert |
| Treatments.UpsertKeys | application/treatment/services.py:48-55 | the ids after the upsert are the old ids plus the records' ids; no row is removed |
| Treatments.UpsertKeepsOthers | application/treatment/services.py:46-56 | a row whose id no record carries is left unchanged |
| Treatments.UpsertLatest | application/treatment/services.py:48-55 | each id holds the row of the last record with that id |
| Treatments.UpsertKeyedById | application/treatment/services.py:48-55 | every row stays under its own id, so an existing id is updated and not duplicated |
| Treatments.UpsertIdempotent | application/treatment/services.py:46-56 | upserting the same records again changes nothing |
| Treatments.SyncMeaning | application/treatment/services.py:38-57 | the synchronisation succeeds exactly when every id converts; it then keeps every row under its own id, deletes no row, and adds only ids of records |
| Treatments.SyncRows | application/treatment/services.py:46-56 | after a successful synchronisation, a row no record names is unchanged, and each record id holds the name and description of the last record with that id |
| Treatments.SyncIdempotent | application/treatment/services.py:38-57 | synchronising the same records a second time changes nothing |
| Treatments.StageRecords | application/treatment/services.py:46-55 | the upsert loop computes the synchronisation of the table with the records, and keeps the table keyed by id |
| Treatments.TreatmentService.constructor | application/treatment/services.py:34-36 | a new service is not initialised and keeps its YAML file name, `treatments.yaml` when none is given |
| Treatments.TreatmentService.Init | application/treatment/services.py:38-57 | on success the table is the synchronisation of the old table and the service is initialised; an unconvertible id leaves table and flag unchanged |
| Treatments.TreatmentService.RequireInit | application/treatment/services.py:15-26 | `init` runs exactly when the service is not initialised; an initialised service keeps its table |
| Treatments.TreatmentService.GetTreatment | application/treatment/services.py:71-83 | on a fresh service, it answers exactly when the lazy `init` succeeds, and otherwise gives `init`'s error with table and flag unchanged; the answer is the row stored under the id, or `None`, and a found row has that id |
| Treatments.TreatmentService.GetAllTreatments | application/treatment/services.py:60-69 | on a fresh service, it answers exactly when the lazy `init` succeeds, and otherwise gives `init`'s error with table and flag unchanged; the answer is exactly the rows of the table |
| Hti.IsAllowedIssuer | application/hti/services.py:93-102 | a missing or non-text issuer is never allowed |
| Hti.IsAllowedIssuerMeaning | application/hti/services.py:100-102 | an issuer is allowed exactly when it equals, unstripped, some stripped comma-delimited field of the allow-list |
| Hti.DefaultAllowList | instance/config.py:34-35 | the built-in allow-list admits exactly its three host names as written, with no scheme (so `https://localhost:8080` is not among them) |
| Hti.AllowListOfThree | application/hti/services.py:100-101 | three comma-free entries without surrounding whitespace, written with `", "` between them, allow exactly those three entries |
| Hti.JwksUrl | application/hti/services.py:130-139 | the URL starts with `http` and ends with `/.well-known/jwks.json`; `https://` is added only when the issuer does not start with `http`; an issuer with `http` and a final `/` gets only the path |
| Hti.JwksUrlOfHost | application/hti/services.py:133-139 | any non-empty issuer that does not start with the letters `http` and does not end in `/`, such as `localhost:8080` or `hti-portal.example.org`, gives `https://<issuer>/.well-known/jwks.json` |
| Hti.JwksUrlOfOrigin | application/hti/services.py:133-139 | an issuer starting with `http`, such as `https://localhost:8080`, gives the same URL with or without a final `/` |
| Hti.JwksUrlOfHttpLookalike | application/hti/services.py:133-134 | any issuer that starts with the letters `http` but with neither `http://` nor `https://`, and does not end in `/`, such as `httpbin.org` or `httpsproxy.org`, gets only `/` and the path, so its URL has no scheme |
| Hti.GetJwksUrl | application/hti/services.py:123-140 | no URL exactly when the token has no issuer; otherwise the issuer's JWK Set URL |
| Hti.WithDefaultAlg | application/hti/services.py:174-175 | `alg` becomes RS512 only when missing; an existing `alg` and every other member are unchanged |
| Hti.FindKeyMeaning | application/hti/services.py:172-177 | the lookup returns the first entry with the requested `kid`, no key when every entry has another `kid`, and fails on an entry without `kid` met before any match |
| Hti.FoundKeyIsEntry | application/hti/services.py:172-177 | a returned key is an entry of the set with the requested `kid`, and it has an `alg` |
| Hti.GetJwksByKid | application/hti/services.py:162-177 | the loop over `keys` returns exactly the first-match lookup |
| Hti.DiscoverPublicKey | application/hti/services.py:111-121 | without a `kid` or an issuer there is no key, whatever the network answers; otherwise a failed fetch is `FetchFailed`, a first match gives that key (with the token's `kid` and an `alg`), no match gives no key, and an entry without `kid` met first is `EntryWithoutKid` |
| Hti.DiscoverSoleKey | application/hti/services.py:111-121 | a fetched set holding just the key with the token's `kid` yields that key |
| Hti.GetPortal | application/hti/services.py:75-91 | an issuer off the allow-list is refused, whatever the network answers; for an allowed issuer, a discovered key gives the issuer and that key, no key is refused naming the JWK Set URL, and a discovery error is passed on unchanged; success happens only in the first case |
| Hti.Decode | application/hti/services.py:44 | a decoded token is authentic under the key, has `aud`, `exp`, `iss` and `jti` (the options at lines 15-19), the host as audience, the given issuer and a text `jti`; a token lacking a required claim never decodes |
| Hti.JwtModelService.constructor | application/hti/models.py:11-15 | the `JwtId` table starts empty |
| Hti.JwtModelService.ExistsJti | application/hti/services.py:185-193 | true exactly when the `jti` is recorded |
| Hti.JwtModelService.StoreJti | application/hti/services.py:195-204 | the `jti` is recorded afterwards and nothing else is; the insert is refused exactly when it was already there |
| Hti.ReplayDetection | application/hti/services.py:49-61 | a seen `jti` is refused as a replay and the table is unchanged; a new one is recorded and nothing else changes |
| Hti.Launch | application/hti/services.py:27-47 | the launch on the `JwtId` table gives the answer and new table of the launch specification |
| Hti.LaunchAccepts | application/hti/services.py:43-47 | a launch succeeds exactly when the token verifies under the discovered key, its `jti` is new and it has a `task`; it then answers that `task` unchanged and records the `jti` |
| Hti.LaunchRecordsOnlyVerified | application/hti/services.py:43-47 | the table changes only after verification succeeds, and then only by the token's new `jti`; a failed verification leaves it alone |
| Hti.LaunchRefusesUnlistedIssuer | application/hti/services.py:83-91 | an issuer off the allow-list is refused whatever the network, clock and host, and the table is unchanged |
| Hti.LaunchNeverAcceptsTwice | application/hti/services.py:57-61 | after a launch that got past verification, the same token is never accepted again under any network, clock, host or allow-list, and one that verifies again is refused as a replay |
| Hti.LaunchTwice | tests/test_launch.py:56-61 | the same valid token posted twice is answered once and refused as a replay the second time |
| Hti.LaunchScenario | tests/test_launch.py:39-61 | for any issuer that is the whole allow-list as written, with its key published alone under the token's `kid` and a valid token carrying a task and a new `jti`, the first launch answers the `task` claim and records the `jti`, and the same token again is a replay |

## Left out

- Every check inside `jwt.decode` that Hti.Decode does not state is the parameter `authentic`. This covers RSA/RS512 verification and the `exp`, `nbf` and `iat` checks against the clock. It also covers the library's other default refusals: a `sub` that is not text, an `at_hash` without an access token, and an `iat` or `nbf` that is not an integer. Hti.Decode states only the claim checks the options and arguments request, so these are not all the checks.
- Hti.Decode: the audience and claim-format checks are the python-jose library's (`aud` as text or a list of texts, `jti` as text). The library itself is not part of this model.
- Base64url and JSON decoding of the compact token (`get_unverified_claims`, `get_unverified_header`) is left out. The token is given as its header and claims.
- The HTTP fetch and JSON parse of the JWK Set are the parameter `fetch`. It yields the entries the loop over `data['keys']` reads, or fails. An exception in `urlopen` or `json.loads`, or a document without `keys`, is the one failure `FetchFailed`. A `keys` member that iterates to nothing (an empty list, object or string) is an empty sequence, so no key is found and no error is raised.
- Entries are JSON objects in the model. An entry that is not an object raises in the source when the loop reaches it. One after the matching entry is never read, in the source as in the model.
- Hti.IsAllowedIssuer: an issuer that is a JSON list or object raises `TypeError` in the source (it is unhashable). The model treats it as not allowed.
- Hti.GetJwksByKid: the source sets `alg` on the parsed dictionary in place. The model returns the updated copy, since the parsed document is not used after the lookup.
- JSON values compare structurally. Python's cross-type equalities (`1 == True`, `1 == 1.0`) in the `kid` comparison are not modelled, and JSON numbers are integers only.
- The replay guard is modelled sequentially. The check-then-insert is not atomic in the source, and no concurrent exactly-once behaviour is claimed.
- The 256-character limit on the `JwtId` column (application/hti/models.py:15) is not modelled.
- Text.ParseInt: Python's `int` also accepts non-ASCII decimal digits; the model accepts ASCII digits only. The limit of 4300 digits that Python 3.11 and later put on `int()` and `str()` is not modelled, so Text.ParseIntRoundTrip holds for integers of any length.
- Treatments.TreatmentService.Init: ids are unbounded integers. On the default SQLite database, an id outside the signed 64-bit range makes `Treatment.query.get` raise `OverflowError`, so `init` fails. The model stores the row.
- Text.Lower: only ASCII letters are lowered. This is exact for the membership test of `envget_bool`: no other character lowers into one of the accepted words.
- The YAML file is not read: its `treatments` list is the `records` input. A record without `id`, `name` or `description` (a `KeyError`) and a missing `treatments` key are not modelled.
- SQLAlchemy is not modelled: sessions, `app_context`, autoflush and the rollback of staged rows when `int` raises. The table is a map, and a failed `init` leaves it as it was.
- Treatments.TreatmentService.GetAllTreatments: `Treatment.query.all()` returns a list in database order. The model returns the set of rows.
- Flask views, blueprints and error handlers are left out: application/app.py and the `views.py` files. So are the mock user service (application/user/services.py), database wiring and startup scripts.
