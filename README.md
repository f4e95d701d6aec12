# applicence-manager licensing core in Dafny

applicence-manager is a licence server for desktop apps. Its backend lets an administrator
register apps, issue licence keys with a seat limit (`maxActivations`), and optionally lock a
licence to one machine. A client activates a key for a machine and gets back a signed activation
token. The client later validates the token or deactivates the machine. An administrator approves
or revokes activations, and every activation, approval and revocation is written to an
activation log. A dashboard session token (an HS256 JWT), a double-submit CSRF check and a
fixed-window rate limiter sit in front of the routes. The dashboard front end builds API
requests and summarises licences per app.

This project models that core and proves what it promises:

- **Tables.** The four tables of `db/auth-schema.ts` are the datatypes of `schema.dfy`, together
  with the unique indexes the database enforces (`Schema.Valid`). The SQL statements the services
  issue (`SELECT ... WHERE`, `count(*)`, `UPDATE ... WHERE`, `DELETE ... WHERE`) are the functions
  of `tables.dfy`.
- **Services as steps.** Every service operation of `services/apps.ts`, `services/licensing.ts`
  and `routes/activations.ts` is a step function from the tables before to a result and the
  tables after (`Outcome`). The lemmas about ordering, cascades, seats and index preservation are
  stated on these functions.
- **The store.** `LicenseStore.Store` is the database: a class with the four tables as fields.
  Its methods perform the operations in place, statement by statement. Each method's `ensures`
  ties the new state to the step function and keeps `Valid()`.
- **Tokens.** Both token codecs (`lib/jwt.ts` and `lib/license-token.ts`) share the JWS Compact
  Serialization of section 7.1 of RFC 7515 with the HS256 header of section 3.2 of RFC 7518
  (`jws.dfy`). UTF-8, base64url (section 5 of RFC 4648), `JSON.stringify`/`JSON.parse` and
  HMAC-SHA256 are the abstract fields of `Encoding.Primitives`. Their round-trip laws are the
  predicate `Encoding.Lawful`, which the proofs take as a precondition.
- **Small sequential pieces.** The rate limiter is a class whose per-key map is updated in place
  (`RateLimit.RateLimiter`). The cookie parser is a fold. The CSRF and authentication gates are
  decision functions. The configuration parsers, the front end's URL and header construction,
  and the per-app licence summary are also modelled. The summary is a loop over the licences,
  then a sort.

The clock (`now`, in milliseconds), `crypto.randomUUID()` (the fresh ids, passed in), `randomInt`
draws and `randomBytes` output are all parameters. The environment variables are parameters too
(`None` when unset).

### The seat gap

`activateLicense` decides whether a machine has a seat with
`!!existingActivation || activeCount < license.maxActivations`
(`apps/backend/src/services/licensing.ts:307-308`). A machine that already has a row for the
`(appName, licenseKey, machineId)` triple passes, whatever that row's status is. Reactivating a
revoked or pending row therefore takes one more seat than were in use, even when every seat is
taken. The model keeps this behaviour as written:

- `ActivationService.SeatRule` states that only a machine without a row is held to the limit.
- `ActivationService.ReactivationIgnoresLimit` proves, for every valid table state, that
  reactivating a non-active row succeeds and reports one more used seat than before.
- `ActivationService.ReactivationExceedsLimit` exhibits the example. A licence has one seat, an
  active machine `m1` and a revoked machine `m2`. Activating `m2` succeeds with
  `usedActivations == 2` and `maxActivations == 1`.
- The administrator's approve route has the same property: it makes a row active without any seat
  check (`ActivationRoutes.ApproveTakesSeat`).

### Where the description and the code differ

The code is followed throughout. Two points are worth knowing:

- `parsePositiveInt` floors a fractional value, so `Number("0.5")` gives a TTL of 0 days.
- The base URL normalisation is not idempotent. `" / /"` becomes `"/ "` after trimming and cutting
  the trailing slashes, and `"/ "` normalises once more to `""`. Only the single normalisation the
  code performs is stated (`ApiClient.BaseUrl`, `ApiClient.NormalBaseUrlKept`).

## Model

| member | source | states |
|---|---|---|
| Schema.AppInsert | apps/backend/src/db/auth-schema.ts:53-54 | an app insert the database accepts (no shared id, name or slug) keeps the id, name and slug indexes unique |
| Schema.LicenseInsert | apps/backend/src/db/auth-schema.ts:72-75 | an accepted licence insert keeps the id and `(appName, licenseKey)` indexes unique |
| Schema.ActivationInsert | apps/backend/src/db/auth-schema.ts:101-103 | an accepted activation insert keeps the id and `(appName, licenseKey, machineId)` indexes unique |
| Schema.ActivationIdsWhere | apps/backend/src/services/licensing.ts:197-208 | the ids selected are exactly the ids of the activations the condition selects |
| Schema.Remaining | apps/backend/src/services/licensing.ts:399 | `max(maxActivations - used, 0)`: never negative, and the seats left when some are left |
| Tables.First | apps/backend/src/services/licensing.ts:244-252 | `SELECT ... LIMIT 1`: the first matching row; nothing exactly when no row matches |
| Tables.Count | apps/backend/src/services/licensing.ts:296-307 | `SELECT count(*)` is at most the number of rows |
| Tables.CountAppend | apps/backend/src/services/licensing.ts:334-347 | an inserted row adds one to a count exactly when it matches |
| Tables.CountSet | apps/backend/src/services/licensing.ts:319-332 | replacing one row changes a count by what the old and new row contribute |
| Tables.CountSplit | apps/backend/src/routes/activations.ts:11-23 | counts of disjoint conditions add up to the count of their union |
| Tables.UpdateWhere | apps/backend/src/services/licensing.ts:535-547 | `UPDATE ... WHERE p`: every matching row rewritten, every other row kept, same length |
| Tables.DeleteWhere | apps/backend/src/services/licensing.ts:214-223 | `DELETE ... WHERE p`: exactly the rows that do not match are left, as a set |
| Tables.SelectWhere | apps/backend/src/services/licensing.ts:100-105 | `SELECT * ... WHERE p`: exactly the matching rows, as a set |
| Tables.SelectDeletePartition | apps/backend/src/services/licensing.ts:214-223 | the rows a `SELECT` returns and the rows a `DELETE` of the same condition keeps make up the table, each row once |
| Tables.UniqueUpdate | apps/backend/src/db/auth-schema.ts:101-103 | an update that keeps every row's key keeps a unique index unique |
| Tables.UniqueDelete | apps/backend/src/db/auth-schema.ts:53-54 | deleting rows keeps a unique index unique |
| Encoding.Utf8Injective | apps/backend/src/lib/license-token.ts:20-25 | equal UTF-8 encodings come from equal strings |
| Json.Put | apps/backend/src/services/licensing.ts:71-74 | property assignment: the key reads the new value, the others are unchanged, keys stay distinct |
| Json.Spread | apps/backend/src/services/licensing.ts:71-74 | `{...acc, ...fields}`: a key reads from `fields` when bound there, else from `acc` |
| Json.LookupFound | apps/backend/src/lib/license-token.ts:59-63 | a property read is defined exactly when some binding has the key |
| Jws.SegmentRoundTrip | apps/backend/src/lib/license-token.ts:44-45 | decoding an encoded segment gives back its JSON value; a segment is non-empty and has no `.` |
| Jws.SignatureShape | apps/backend/src/lib/license-token.ts:14-18 | `signJwtParts` gives a non-empty segment without `.` |
| Jws.DiffCount | apps/backend/src/lib/license-token.ts:20-25 | the byte comparison finds no difference exactly when the byte strings are equal |
| Jws.SafeSignatureEqualsIsEquality | apps/backend/src/lib/license-token.ts:20-25 | `safeSignatureEquals` is string equality |
| Jws.CompactSplit | apps/backend/src/lib/license-token.ts:48-56 | a compact token of three `.`-free segments splits back into those segments |
| Jws.AcceptedTokensAreSigned | apps/backend/src/lib/license-token.ts:53-66 | every accepted token is `h.b.HMAC(h.b)` for some segments h and b |
| Jws.SignThenVerify | apps/backend/src/lib/license-token.ts:44-68 | the shared checks accept an unmodified signed token and return its body |
| Jws.TamperedSignatureRejected | apps/backend/src/lib/license-token.ts:65-66 | replacing the signature segment by any other segment is rejected |
| SessionToken.Verify | apps/backend/src/lib/jwt.ts:45-72 | an accepted token passed the shape, header and signature checks, has acceptable times and non-empty `userId`, `email`, `sessionToken` |
| SessionToken.MalformedRejected | apps/backend/src/lib/jwt.ts:47-51 | a token that is not three non-empty segments is rejected |
| SessionToken.ForgedRejected | apps/backend/src/lib/jwt.ts:59-60 | a token whose signature is not the HMAC of its first two segments is rejected |
| SessionToken.BodyFields | apps/backend/src/lib/jwt.ts:33-39 | the body carries the three claims, `iat`, and `exp == iat + 86400`, and no `typ` |
| SessionToken.GenerateThenVerify | apps/backend/src/lib/jwt.ts:28-72 | a generated token with non-empty claims verifies within its day to exactly the signed body |
| SessionToken.ExpiresAfterOneDay | apps/backend/src/lib/jwt.ts:37-64 | a generated token is rejected once more than a day has passed |
| LicenseToken.Verify | apps/backend/src/lib/license-token.ts:51-78 | an accepted token passed the shared checks, has `typ == "license_activation"` and acceptable `exp`/`iat` |
| LicenseToken.MalformedRejected | apps/backend/src/lib/license-token.ts:53-57 | a token that is not three non-empty segments is rejected |
| LicenseToken.BadHeaderRejected | apps/backend/src/lib/license-token.ts:59-63 | a header other than HS256/JWT is rejected |
| LicenseToken.ForgedRejected | apps/backend/src/lib/license-token.ts:65-66 | a forged signature is rejected |
| LicenseToken.PayloadFields | apps/backend/src/lib/license-token.ts:33-42 | the payload has the `typ`, the `jti`, the given licence, app and machine, `iat = floor(now/1000)`, `exp = floor(expiresAt/1000)` |
| LicenseToken.SignThenVerify | apps/backend/src/lib/license-token.ts:27-78 | a signed token verifies to exactly its payload while `iat <= now + 60` and `exp >= now`; the `jti` is 32 hex digits |
| LicenseToken.RejectedAfterExpiry | apps/backend/src/lib/license-token.ts:71 | a signed token is rejected once its expiry second has passed |
| LicenseToken.SessionTokenRejected | apps/backend/src/lib/license-token.ts:69 | a session token is never accepted as an activation token |
| LicenseToken.NotASessionToken | apps/backend/src/lib/jwt.ts:66 | an activation token is never accepted as a session token |
| Env.ParseList | apps/backend/src/lib/env.ts:1-7 | unset or empty gives `[]`; every item is trimmed and non-empty |
| Env.ParseListItem | apps/backend/src/lib/env.ts:3-6 | a comma-free value gives its trimmed text, or nothing when blank |
| Env.ParseListConcat | apps/backend/src/lib/env.ts:3-6 | the list of `a,b` is the list of `a` followed by the list of `b` |
| Env.RequireSecret | apps/backend/src/lib/env.ts:9-15 | succeeds iff the trimmed value is present and at least `minLength` long, and then returns it |
| Env.ParsePositiveInt | apps/backend/src/lib/env.ts:17-21 | the fallback for a non-finite or non-positive number, else its floor |
| Env.ActivationTokenTtlDays | apps/backend/src/lib/env.ts:31-34 | at most 365 and never negative; 30 when unset; `min(n, 365)` for a whole `n >= 1` |
| Http.RawKey | apps/backend/src/lib/http.ts:4 | a key never holds `=` |
| Http.ParseCookies | apps/backend/src/lib/http.ts:1-14 | a missing or empty header gives the empty record; every key is non-empty and `=`-free |
| Http.KeyAndValue | apps/backend/src/lib/http.ts:4-6 | the key is the trimmed part up to the first `=`; the value is everything after it, further `=` included |
| Http.EmptyPartSkipped | apps/backend/src/lib/http.ts:5 | a part with an empty key changes nothing |
| Http.ParseCookiesAppend | apps/backend/src/lib/http.ts:3-13 | reading `h; part` is reading `h` and then applying `part` |
| Http.LaterDuplicateWins | apps/backend/src/lib/http.ts:3-13 | the last part that sets a key decides its value; other keys are unaffected |
| Http.SingleCookie | apps/backend/src/lib/http.ts:1-14 | one `key=value` pair reads as that pair, with the decoded value or the raw one when decoding fails |
| Csrf.TokensMatchIsEquality | apps/backend/src/middleware/csrf.ts:9-12 | `tokensMatch` is true iff the strings are equal, false on different lengths, and never throws on ASCII |
| Csrf.BeforeHandle | apps/backend/src/middleware/csrf.ts:33-51 | GET, HEAD and OPTIONS, `/api/csrf` and `/api/v1/license*` always pass |
| Csrf.ProtectedRequest | apps/backend/src/middleware/csrf.ts:41-50 | any other request passes exactly when the cookie is non-empty and the header equals it, and gets 403 otherwise |
| Csrf.AsciiNeverFaults | apps/backend/src/middleware/csrf.ts:9-12 | with ASCII cookie and header the hook never throws |
| Csrf.IssueToken | apps/backend/src/middleware/csrf.ts:15-32 | the token is the 64 hex digits of 32 random bytes; the cookie carries it, with `Secure` iff secure cookies are used |
| Csrf.IssuedTokenPasses | apps/backend/src/middleware/csrf.ts:15-50 | a state-changing request that echoes the issued cookie's token in the header passes |
| Csrf.EchoedTokenPasses | apps/backend/src/middleware/csrf.ts:41-50 | a hex token sent both as the cookie and as the header passes |
| AuthGate.SessionCookie | apps/backend/src/middleware/auth.ts:26-28 | the `session` cookie is used only when non-empty |
| AuthGate.Decide | apps/backend/src/middleware/auth.ts:21-63 | public paths and an active session cookie pass; a refusal means no public path and no active cookie session |
| AuthGate.PassesExactly | apps/backend/src/middleware/auth.ts:8-63 | a request passes iff its path is public, its cookie names an active session, or its bearer token verifies and names an active session |
| AuthGate.RefusalReasons | apps/backend/src/middleware/auth.ts:39-61 | "Unauthorized" without the `Bearer ` prefix, "Invalid or expired token" when verification fails, "Session expired" otherwise |
| AuthGate.GeneratedBearerPasses | apps/backend/src/middleware/auth.ts:39-61 | a generated session token for an active session passes as a bearer token within its day |
| AuthGate.EndedSessionRefused | apps/backend/src/middleware/auth.ts:51-61 | a verified token whose session has expired or is gone gets "Session expired" |
| RateLimit.ClientKey | apps/backend/src/middleware/rate-limit.ts:17-23 | the trimmed first `x-forwarded-for` item, else `x-real-ip`, else `"unknown"`; never empty |
| RateLimit.CeilSeconds | apps/backend/src/middleware/rate-limit.ts:42 | `Math.ceil(ms / 1000)` |
| RateLimit.RetryAfterSeconds | apps/backend/src/middleware/rate-limit.ts:42-44 | at least 1, and the ceiling of the seconds left in the window |
| RateLimit.RateLimiter.constructor | apps/backend/src/middleware/rate-limit.ts:25-27 | a new limiter has an empty store |
| RateLimit.RateLimiter.Handle | apps/backend/src/middleware/rate-limit.ts:29-49 | unmatched requests pass unchanged; a new window starts at count 1; a full window answers 429 unchanged; otherwise the count grows by 1; other keys are untouched |
| RateLimit.RateLimiter.Burst | apps/backend/src/middleware/rate-limit.ts:34-48 | however many requests arrive at one instant, a window lets through at most `maxRequests` (at least one) |
| LicenseKeys.AlphabetIsUnambiguous | apps/backend/src/services/licensing.ts:24 | the alphabet is 32 distinct upper-case letters and digits without `0`, `1`, `I`, `O` |
| LicenseKeys.KeyChar | apps/backend/src/services/licensing.ts:27 | a draw in range gives its alphabet symbol, any other gives `X` |
| LicenseKeys.RandomGroup | apps/backend/src/services/licensing.ts:23-30 | the loop appends one alphabet symbol per draw: a group as long as the draws |
| LicenseKeys.LicenseKeyFormat | apps/backend/src/services/licensing.ts:32-34 | a generated key is 29 characters, five groups of five alphabet symbols joined by `-` |
| LicenseKeys.GenerateLicenseKey | apps/backend/src/services/licensing.ts:32-34 | the key built from five groups is the five groups joined by `-` |
| LicenseKeys.FallbackKeyFormat | apps/backend/src/services/licensing.ts:50 | the fallback is a generated key, `-`, and four upper-case hex digits: 34 characters |
| LicenseKeys.ChooseKeyIsFirstFree | apps/backend/src/services/licensing.ts:37-50 | the key chosen is the first candidate the app does not hold, else the unchecked fallback |
| LicenseKeys.UniqueKeyChoice | apps/backend/src/services/licensing.ts:36-51 | a chosen key other than the fallback is free for the app and 29 characters long |
| LicenseKeys.CreateUniqueLicenseKey | apps/backend/src/services/licensing.ts:36-51 | the retry loop returns the key the specification chooses |
| AppNames.SlugifyShape | apps/backend/src/services/apps.ts:5-12 | a slug is at most 120 characters of `[a-z0-9-]`, never starts with `-`, and has no `--` |
| AppNames.SlugEmptyIff | apps/backend/src/services/apps.ts:5-12 | a slug is empty iff the lower-cased, trimmed input has no `[a-z0-9]` |
| AppNames.CompactShape | apps/backend/src/services/apps.ts:24-26 | a compact identifier holds only `[a-z0-9]` |
| AppNames.CompactIdempotent | apps/backend/src/services/apps.ts:24-26 | compacting twice gives the same as compacting once |
| AppNames.FindByIdentifier | apps/backend/src/services/apps.ts:28-49 | nothing for a blank identifier; otherwise the first app that matches one of the five tests; nothing iff none matches |
| AppNames.FindByName | apps/backend/src/services/apps.ts:18-22 | the first app whose name is exactly the trimmed name |
| AppNames.ExactNameFound | apps/backend/src/services/apps.ts:37-47 | an app whose trimmed name is the identifier is always found, itself or an earlier match |
| AppService.CreateApp | apps/backend/src/services/apps.ts:56-85 | blank names are refused; an existing name returns its app unchanged; otherwise the new active app, with `slugify(name)` or `app-<8 id chars>`, is appended |
| AppService.CreateAppKeepsValid | apps/backend/src/services/apps.ts:56-85 | creating an app keeps the tables valid |
| AppService.CreateAppConflict | apps/backend/src/db/auth-schema.ts:54 | a new app is refused exactly when another app already holds its slug |
| AppService.CreateAppIdempotent | apps/backend/src/services/apps.ts:62-65 | a second creation under the same name returns the same app and changes nothing |
| AppService.GetOrCreateApp | apps/backend/src/services/apps.ts:87-96 | nothing for a blank name; the app with that exact name; or the created one |
| AppService.GetOrCreateKeepsValid | apps/backend/src/services/apps.ts:87-96 | getting or creating an app keeps the tables valid |
| AppService.UpdateApp | apps/backend/src/services/apps.ts:98-155 | an unknown id and a name held by another app are refused with no change; the transaction is rolled back as a whole on a broken index |
| AppService.UpdateAppSteps | apps/backend/src/services/apps.ts:102-147 | for a known id the update is the name check, then the transaction |
| AppService.UpdateAppKeepsValid | apps/backend/src/services/apps.ts:119-147 | updating keeps the tables valid |
| AppService.RenameCascade | apps/backend/src/services/apps.ts:130-146 | after a rename every licence and activation of the old name has the new one, none keeps the old name, and other rows are kept |
| AppService.SameNameLeavesRows | apps/backend/src/services/apps.ts:130 | a status-only update leaves licences and activations untouched |
| AppService.UpdatedRow | apps/backend/src/services/apps.ts:107-128 | the row gets the trimmed new name (else the old), its slug (else the old slug), the new status (else the old) |
| AppService.NameTakenRefusal | apps/backend/src/services/apps.ts:110-115 | a new name is refused exactly when another app holds it |
| AppService.DeleteApp | apps/backend/src/services/apps.ts:157-178 | an unknown id is refused with no change |
| AppService.DeleteCascade | apps/backend/src/services/apps.ts:163-175 | no app with the id, no licence or activation with its name, and no log of a removed activation is left |
| AppService.DeleteKeepsOthers | apps/backend/src/services/apps.ts:163-175 | other apps' rows, licences, activations and their logs survive |
| AppService.DeleteAppKeepsValid | apps/backend/src/services/apps.ts:157-178 | deleting keeps the tables valid |
| Licensing.NormalizeAppName | apps/backend/src/services/licensing.ts:15-21 | the trimmed name, and `APP_NAME_REQUIRED` exactly when it is blank |
| Licensing.ResolveAppName | apps/backend/src/services/licensing.ts:235-236 | the name of an app the identifier matches, else the identifier itself |
| Licensing.LockedMachineId | apps/backend/src/services/licensing.ts:264-272 | a lock is non-empty and trimmed; no metadata means no lock |
| Licensing.TypeOfLock | apps/backend/src/services/licensing.ts:281-283 | `machine_id_bound` iff a lock is set |
| Licensing.IssueSeats | apps/backend/src/services/licensing.ts:64 | at least 1; the requested count when it is at least 1, else 1 |
| Licensing.IssueLock | apps/backend/src/services/licensing.ts:70 | the trimmed lock, absent exactly when the request's lock is absent or blank |
| Licensing.InsertLicense | apps/backend/src/services/licensing.ts:76-86 | the licence is appended, or refused with no change exactly when its id or `(appName, key)` is taken |
| Licensing.EnsureApp | apps/backend/src/services/licensing.ts:59-63 | refused exactly for a blank name; only the apps table can change |
| Licensing.EnsuredAppExists | apps/backend/src/services/licensing.ts:59-63 | the name used is the name of an app in the tables afterwards |
| Licensing.Issue | apps/backend/src/services/licensing.ts:53-96 | an issued licence is active, has no expiry and at least one seat; it is issued under the app the name resolves to, with the key the retry loop chooses for that app, and is appended; activations and logs are untouched |
| Licensing.IssuedKeyChoice | apps/backend/src/services/licensing.ts:37-50 | the issued key is a 29-character key the app did not hold, or the fallback from the last draw and the suffix |
| Licensing.IssuedApp | apps/backend/src/services/licensing.ts:59-63 | an issued licence names an app of the tables afterwards |
| Licensing.IssuedKeyFree | apps/backend/src/services/licensing.ts:67-86 | no other licence of the app holds the issued key, and no licence has the new id |
| Licensing.IssueKeepsValid | apps/backend/src/services/licensing.ts:53-96 | issuing keeps the tables valid |
| Licensing.IssuedLockEnforced | apps/backend/src/services/licensing.ts:264-272 | a licence issued with a non-blank lock reads back that trimmed lock |
| Licensing.UnlockedIssue | apps/backend/src/services/licensing.ts:83 | with no lock and no metadata the licence stores null metadata and is not locked |
| Licensing.Usage | apps/backend/src/services/licensing.ts:113-131 | `remainingActivations >= 0`, and it is `max - active` whenever positive |
| Licensing.UsageCountsOwnActive | apps/backend/src/services/licensing.ts:116-121 | an activation of another licence, or one not exactly `active`, takes no seat |
| Licensing.ListLicenses | apps/backend/src/services/licensing.ts:98-136 | exactly the selected licences are listed, each with its usage |
| Licensing.ListAll | apps/backend/src/services/licensing.ts:99-105 | without a (non-blank) filter every licence is listed in table order |
| Licensing.SetLicenseStatus | apps/backend/src/services/licensing.ts:138-149 | the licences with the id get the status; no other field or table changes |
| Licensing.SetLicenseStatusKeepsValid | apps/backend/src/services/licensing.ts:138-149 | setting a status keeps the tables valid |
| Licensing.GetLicense | apps/backend/src/services/licensing.ts:151-157 | a licence with the id, and nothing exactly when none has it |
| Licensing.NextSeats | apps/backend/src/services/licensing.ts:168-171 | at least 1; the requested count when at least 1; the old count when none (or 0) is given |
| Licensing.UpdateLicense | apps/backend/src/services/licensing.ts:159-189 | an unknown id is refused with no change; otherwise the seats (at least 1) and status are set, other fields and activations kept |
| Licensing.UpdateLicenseKeepsValid | apps/backend/src/services/licensing.ts:159-189 | updating keeps the tables valid |
| Licensing.UpdateLicenseKeepsOthers | apps/backend/src/services/licensing.ts:174-181 | licences with another id keep every field |
| Licensing.DeleteLicense | apps/backend/src/services/licensing.ts:191-225 | an unknown id is refused with no change; the apps table is never touched |
| Licensing.DeleteLicenseCascade | apps/backend/src/services/licensing.ts:197-223 | the licence, its activations and their logs are gone; every other licence, activation and log is kept |
| Licensing.DeleteLicenseKeepsValid | apps/backend/src/services/licensing.ts:191-225 | deleting keeps the tables valid |
| ActivationService.LicenseGate | apps/backend/src/services/licensing.ts:257-280 | passes iff the licence is active, unexpired, and not locked to another machine |
| ActivationService.SeatGate | apps/backend/src/services/licensing.ts:285-315 | 409 exactly when the triple has no row and the active count has reached the limit |
| ActivationService.AdmitFor | apps/backend/src/services/licensing.ts:244-315 | an admission names the first licence of the app with the key, which passed the licence and seat checks |
| ActivationService.Admit | apps/backend/src/services/licensing.ts:234-315 | admission needs a non-blank name; it records the triple's first row |
| ActivationService.TokenExpiryRule | apps/backend/src/services/licensing.ts:358-360 | the licence's expiry, else at least a day after `now` |
| ActivationService.Activate | apps/backend/src/services/licensing.ts:227-402 | succeeds iff admitted; any failure writes nothing; apps and licences never change |
| ActivationService.ActivateOrder | apps/backend/src/services/licensing.ts:234-315 | blank name, then 404, 403 not active, 403 expired, 403 locked, then 409, each exactly when the earlier checks pass |
| ActivationService.AdmittedLicense | apps/backend/src/services/licensing.ts:244-280 | the admitted licence is the resolved app's licence with the key, active, unexpired, not locked elsewhere |
| ActivationService.SeatRule | apps/backend/src/services/licensing.ts:307-308 | a machine without a row is admitted only below the limit |
| ActivationService.ActivatedRow | apps/backend/src/services/licensing.ts:317-348 | afterwards the triple's first row is active and carries the granted id |
| ActivationService.ReactivatedRow | apps/backend/src/services/licensing.ts:318-332 | an existing row is updated in place and keeps its id |
| ActivationService.InsertedRow | apps/backend/src/services/licensing.ts:333-347 | without a row one active row with the fresh id is appended |
| ActivationService.ActivatedOthers | apps/backend/src/services/licensing.ts:317-348 | every other activation is unchanged |
| ActivationService.ActivateAdmitted | apps/backend/src/services/licensing.ts:317-401 | a successful activation is the admitted step on the admission |
| ActivationService.ActivateLogs | apps/backend/src/services/licensing.ts:350-356 | exactly one log is appended, naming the granted id, `reactivated` iff the triple had a row |
| ActivationService.AdmittedCounts | apps/backend/src/services/licensing.ts:367-399 | `usedActivations` is the active count afterwards; a new machine adds exactly one seat |
| ActivationService.ActivateCounts | apps/backend/src/services/licensing.ts:367-399 | `usedActivations` is the new active count, `remainingActivations = max(max - used, 0)`, and a new machine stays within the limit |
| ActivationService.AdmittedGrant | apps/backend/src/services/licensing.ts:379-400 | the grant names the admitted licence and app, the granted id, the signed token and its expiry |
| ActivationService.ActivateTokenExpiry | apps/backend/src/services/licensing.ts:358-366 | the token expires with the licence, or `now` plus the TTL in days |
| ActivationService.GapAdmitted | apps/backend/src/services/licensing.ts:285-315 | in the example, the revoked machine is admitted through its row |
| ActivationService.UpdateById | apps/backend/src/services/licensing.ts:332 | with unique ids, the update by id replaces exactly that row |
| ActivationService.ReactivationIgnoresLimit | apps/backend/src/services/licensing.ts:307-332 | reactivating a non-active row succeeds with one seat more than were in use, whatever the limit |
| ActivationService.ReactivationExceedsLimit | apps/backend/src/services/licensing.ts:307-308 | with one seat, m1 active and m2 revoked, activating m2 gives 2 seats used of 1 |
| ActivationService.GapPremises | apps/backend/src/db/auth-schema.ts:83-109 | the example's tables are valid, its ids fresh, and m2's row not active |
| ActivationService.AdmittedKeepsValid | apps/backend/src/services/licensing.ts:317-356 | an admitted activation keeps the tables valid |
| ActivationService.ActivateKeepsValid | apps/backend/src/services/licensing.ts:227-402 | activating keeps the tables valid |
| ActivationService.CheckToken | apps/backend/src/services/licensing.ts:409-425 | a passed token check has a payload naming the resolved app and the machine |
| ActivationService.CheckTokenOrder | apps/backend/src/services/licensing.ts:409-425 | blank name, then invalid token, then app or machine mismatch |
| ActivationService.TokenLicense | apps/backend/src/services/licensing.ts:427-430 | the licence whose id is the payload's `licenseId`; none when no licence has it |
| ActivationService.ValidateLicense | apps/backend/src/services/licensing.ts:431-493 | not active, expired, then "Activation not active"; on success the report carries the licence, the triple's first row (active), the licence's lock type and seat limit, its active count and `max(max - used, 0)` |
| ActivationService.Validate | apps/backend/src/services/licensing.ts:404-494 | a valid report names the token's licence, active and unexpired, and the triple's active row, with the licence's seat limit and counts |
| ActivationService.ValidateOrder | apps/backend/src/services/licensing.ts:427-464 | the refusals after the token checks come in the source's order |
| ActivationService.RevokeTriple | apps/backend/src/services/licensing.ts:535-558 | every row of the triple is revoked, no log is written, the count is taken afterwards |
| ActivationService.Deactivate | apps/backend/src/services/licensing.ts:496-568 | only the token, match and licence existence are checked; failures write nothing; no log is appended |
| ActivationService.DeactivateRevokes | apps/backend/src/services/licensing.ts:535-547 | every row of the triple is revoked and every other row is kept |
| ActivationService.DeactivateKeepsValid | apps/backend/src/services/licensing.ts:496-568 | deactivating keeps the tables valid |
| ActivationService.DeactivateThenValidate | apps/backend/src/services/licensing.ts:462-547 | after a deactivation the same token gets "Activation not active" while the licence stays active and unexpired |
| ActivationService.ActivateThenValidate | apps/backend/src/services/licensing.ts:227-494 | the granted token validates against the new tables while unexpired |
| ActivationService.TokenFindsLicense | apps/backend/src/services/licensing.ts:427-430 | with unique ids, a token naming a licence's id finds that licence |
| ActivationService.ValidateAfterActivate | apps/backend/src/services/licensing.ts:427-464 | the licence and row checks pass on the tables an activation leaves |
| ActivationRoutes.StatusCounts | apps/backend/src/routes/activations.ts:10-33 | each count is the number of rows with that status, and `total` is all rows |
| ActivationRoutes.StatsAddUp | apps/backend/src/routes/activations.ts:10-33 | `total == active + pending + revoked` |
| ActivationRoutes.InsertPending | apps/backend/src/routes/activations.ts:55-79 | the inserted row is pending, or the insert is refused with no change when its triple is taken |
| ActivationRoutes.InsertPendingKeepsValid | apps/backend/src/routes/activations.ts:55-79 | a manual insert keeps the tables valid |
| ActivationRoutes.InsertPendingTakesNoSeat | apps/backend/src/routes/activations.ts:72 | a manual insert leaves every licence's seat count unchanged |
| ActivationRoutes.Approve | apps/backend/src/routes/activations.ts:80-96 | the update of the rows with the id, then one `approved` log |
| ActivationRoutes.Revoke | apps/backend/src/routes/activations.ts:97-107 | the update of the rows with the id, then one `revoked` log |
| ActivationRoutes.TransitionRows | apps/backend/src/routes/activations.ts:81-104 | only the rows with the id change, and exactly one log is appended |
| ActivationRoutes.ApproveRows | apps/backend/src/routes/activations.ts:81-87 | every row with the id is active since `now`, otherwise unchanged |
| ActivationRoutes.RevokeRows | apps/backend/src/routes/activations.ts:98 | every row with the id is revoked, otherwise unchanged |
| ActivationRoutes.TransitionOfMissingId | apps/backend/src/routes/activations.ts:81-104 | an unknown id leaves the activations as they were and still appends the log |
| ActivationRoutes.ApproveTakesSeat | apps/backend/src/routes/activations.ts:80-96 | approving a non-active row takes one more seat, with no limit check |
| ActivationRoutes.RevokeFreesSeat | apps/backend/src/routes/activations.ts:97-107 | revoking an active row frees one seat |
| ActivationRoutes.ApproveKeepsValid | apps/backend/src/routes/activations.ts:80-96 | approving keeps the tables valid |
| ActivationRoutes.RevokeKeepsValid | apps/backend/src/routes/activations.ts:97-107 | revoking keeps the tables valid |
| ActivationRoutes.GetActivation | apps/backend/src/routes/activations.ts:41-53 | the first row with the id and exactly the logs whose `activationId` is that id |
| LicenseStore.Store.constructor | apps/backend/src/db/auth-schema.ts:41-119 | an empty database, which is valid |
| LicenseStore.Store.CreateApp | apps/backend/src/services/apps.ts:56-85 | the store after the call is `AppService.CreateApp` of the store before, and stays valid |
| LicenseStore.Store.GetOrCreateApp | apps/backend/src/services/apps.ts:87-96 | the store and result are `AppService.GetOrCreateApp` of the store before |
| LicenseStore.Store.UpdateApp | apps/backend/src/services/apps.ts:98-155 | the store and result are `AppService.UpdateApp` of the store before |
| LicenseStore.Store.RenameTransaction | apps/backend/src/services/apps.ts:119-147 | the three updates are committed when the indexes hold, and rolled back otherwise |
| LicenseStore.Store.DeleteApp | apps/backend/src/services/apps.ts:157-178 | the store and result are `AppService.DeleteApp` of the store before |
| LicenseStore.Store.EnsureApp | apps/backend/src/services/licensing.ts:59-63 | the store and result are `Licensing.EnsureApp` of the store before |
| LicenseStore.Store.Issue | apps/backend/src/services/licensing.ts:53-96 | the store and result are `Licensing.Issue` of the store before |
| LicenseStore.Store.SetLicenseStatus | apps/backend/src/services/licensing.ts:138-149 | the store is `Licensing.SetLicenseStatus` of the store before |
| LicenseStore.Store.UpdateLicense | apps/backend/src/services/licensing.ts:159-189 | the store and result are `Licensing.UpdateLicense` of the store before |
| LicenseStore.Store.DeleteLicense | apps/backend/src/services/licensing.ts:191-225 | the store and result are `Licensing.DeleteLicense` of the store before |
| LicenseStore.Store.Activate | apps/backend/src/services/licensing.ts:227-402 | the store and result are `ActivationService.Activate` of the store before |
| LicenseStore.Store.Admitted | apps/backend/src/services/licensing.ts:317-401 | the in-place update or insert, the log and the grant are `ActivationService.Admitted` |
| LicenseStore.Store.Deactivate | apps/backend/src/services/licensing.ts:496-568 | the store and result are `ActivationService.Deactivate` of the store before |
| LicenseStore.Store.InsertPending | apps/backend/src/routes/activations.ts:55-79 | the store and result are `ActivationRoutes.InsertPending` of the store before |
| LicenseStore.Store.Approve | apps/backend/src/routes/activations.ts:80-96 | the store and result are `ActivationRoutes.Approve` of the store before |
| LicenseStore.Store.Revoke | apps/backend/src/routes/activations.ts:97-107 | the store and result are `ActivationRoutes.Revoke` of the store before |
| ApiClient.StripTrailingSlashes | apps/frontend/src/lib/api-client.ts:5 | a prefix that does not end in `/`, and only slashes were cut |
| ApiClient.BaseUrl | apps/frontend/src/lib/api-client.ts:4-5 | the trimmed variable with its trailing slashes cut; never ends in `/` |
| ApiClient.NormalBaseUrlKept | apps/frontend/src/lib/api-client.ts:4-5 | an already trimmed base without a trailing `/` is used unchanged |
| ApiClient.UnsetBaseUrl | apps/frontend/src/lib/api-client.ts:4 | an unset or empty variable gives the empty base |
| ApiClient.ApiUrl | apps/frontend/src/lib/api-client.ts:7-11 | the URL starts with the base (without a trailing `/api`) and ends with `/api` + path |
| ApiClient.ApiUrlShape | apps/frontend/src/lib/api-client.ts:7-11 | every API URL is the base's stem, `/api` once, then the path |
| ApiClient.StateChangingIff | apps/frontend/src/lib/api-client.ts:26-29 | true exactly for POST, PUT, PATCH and DELETE in any case; false when undefined |
| ApiClient.ApiRequest | apps/frontend/src/lib/api-client.ts:31-45 | the URL and upper-cased method; the caller's headers win; the JSON content type for every non-GET method |
| ApiClient.CsrfHeaderRule | apps/frontend/src/lib/api-client.ts:33-41 | the CSRF header is sent exactly for a state-changing method with a non-empty token, carrying that token |
| ApiClient.LicensesPath | apps/frontend/src/lib/api-client.ts:90-96 | `appName` is added exactly when the trimmed filter is not empty, as its encoding |
| ApiClient.FetchLicensesRequest | apps/frontend/src/lib/api-client.ts:90-97 | the licence fetch is a GET with no content type and no CSRF header |
| LicensesPanel.BeforeTotal | apps/frontend/src/components/dashboard/LicensesPanel.tsx:20 | any two different names are ordered one way or the other |
| LicensesPanel.BeforeTransitive | apps/frontend/src/components/dashboard/LicensesPanel.tsx:20 | the name order is transitive |
| LicensesPanel.SummaryStep | apps/frontend/src/components/dashboard/LicensesPanel.tsx:14-18 | one more licence grows its app's summary by it and no other |
| LicensesPanel.SortByName | apps/frontend/src/components/dashboard/LicensesPanel.tsx:20 | the sort is a permutation of the summaries |
| LicensesPanel.SortSorted | apps/frontend/src/components/dashboard/LicensesPanel.tsx:20 | summaries with distinct names come out ascending by name |
| LicensesPanel.TotalSort | apps/frontend/src/components/dashboard/LicensesPanel.tsx:20 | sorting keeps the total number of licences |
| LicensesPanel.TallyLicenses | apps/frontend/src/components/dashboard/LicensesPanel.tsx:12-19 | the loop computes the first-seen-order fold of the licences |
| LicensesPanel.TallyOfIsTally | apps/frontend/src/components/dashboard/LicensesPanel.tsx:12-19 | the fold gives one summary per distinct name, each the count and sums of that app's licences, totalling the input |
| LicensesPanel.BuildAppSummaries | apps/frontend/src/components/dashboard/LicensesPanel.tsx:11-21 | sorted by name, one summary per app named in the input, each the app's licence count and seat sums, totals adding up to the input length |
| LicensesPanel.CreateAppGuard | apps/frontend/src/components/dashboard/LicensesPanel.tsx:55-61 | a name is submitted iff it is non-empty once trimmed, and then trimmed |
| LicensesPanel.CreateLicenseGuard | apps/frontend/src/components/dashboard/LicensesPanel.tsx:63-74 | submitted iff the selected app exists and the seat count is a number at least 1 |
| LicensesPanel.CreateLockedGuard | apps/frontend/src/components/dashboard/LicensesPanel.tsx:76-84 | as above, and the trimmed machine id has at least 6 characters; the lock is that trimmed id |
| LicensesPanel.EditAppGuard | apps/frontend/src/components/dashboard/LicensesPanel.tsx:86-93 | a rename is submitted iff an app is being edited and the trimmed name is non-empty |
| LicensesPanel.EditLicenseGuard | apps/frontend/src/components/dashboard/LicensesPanel.tsx:95-102 | an edit is submitted iff a licence is being edited and the seat count is a number at least 1 |

## Left out

- Database I/O, `async`/`await` and the drizzle query builder are replaced by the in-memory tables. Each statement is one step, in the code's order.
- The concurrent read-then-write race on the seat count (two activations at once) is a concurrency property and is not modelled.
- `crypto.randomUUID()` results are parameters. The operations require them to be fresh (no row carries them), which is what a random UUID gives with overwhelming probability.
- `randomInt`, `randomBytes` and `Date.now()` are parameters. HMAC-SHA256, base64url, UTF-8 and JSON are abstract functions whose round-trip laws are a precondition (`Encoding.Lawful`). The constant-time behaviour of `timingSafeEqual` is not stated; it is modelled as equality.
- `createdAt` and `updatedAt` are not columns of the rows. Neither are `activations.userId` and the logs' `ipAddress`/`userAgent`, which no service writes. As a consequence, the order of `GET /api/activations` and of the logs of `GET /:id` (descending `createdAt`) is not modelled: rows come in table order.
- `listApps` (ordered by name) and `getAppById` are one-line reads. They appear only inside the operations that use them.
- Status columns are free text in the schema. The model has exactly the values the code writes, so `ActivationRoutes.StatsAddUp` holds for every table the model can hold.
- `Licensing.ListLicenses`: the filter is an ASCII case-insensitive substring match. SQL `ILIKE` wildcards in the filter (`%`, `_`) are not modelled.
- Lower- and upper-casing are ASCII-only, and `localeCompare` is code-unit lexicographic order. String lengths are lengths in characters, not UTF-16 code units.
- Json.WellFormed: the fields of an object are kept in the order they are listed, not JavaScript's own-key order, which puts integer-like keys first. So the round-trip law of `Encoding.Lawful` also covers orders `JSON.parse` never produces. No property of the model depends on field order.
- Numbers in JSON are integers. The `exp`/`iat` checks reject non-numeric claims rather than following JavaScript coercion. A payload whose `licenseId` is not a string names no licence.
- The "Failed to create app", "Failed to update app" and "Failed to update license" branches are not modelled. They re-read a row the code has just written, so they cannot be taken in a sequential model.
- `routes/licenses.ts`, `routes/apps.ts`, `routes/license-public.ts`, `routes/auth.ts`, `routes/health.ts` and `index.ts` are thin HTTP routing and are not part of this model. In particular, `routes/licenses.ts` does not forward `lockedMachineId` to `issueLicense`, which the model leaves out. The `POST /api/activations` body is not validated by the route, and the model takes it as typed.
- `Env.ParsePositiveInt`: `Number(value)` parsing is a parameter (`None` for NaN and the infinities). The fractional floor is modelled, but not the parsing itself.
- `LicensesPanel.CreateLicenseGuard`, `LicensesPanel.CreateLockedGuard` and `LicensesPanel.EditLicenseGuard` take the result of `Number(...)` as a real or `None` for NaN. `Infinity` passes the guard in the code and is not represented.
- `LicensesPanel.SortByName` is an insertion sort standing for `Array.prototype.sort`. Its order is proved only for distinct names, which `buildAppSummaries` always has. The insertion-ordered `Map` is a sequence in first-seen order.
- `ApiClient.LicensesPath`: `URLSearchParams` encoding is a parameter. The `fetch` calls, response parsing and `Headers` instances passed as caller headers are not modelled; caller headers are a plain map.
- `ApiClient.BaseUrl`: the normalisation is stated once; it is not idempotent (see above).
- The module-level `limiterStores` map that shares a store between limiters of the same name is not modelled. Each `RateLimit.RateLimiter` owns its store.
- `AuthGate.Decide`: the session lookups take the sessions table and `now` as parameters.
- The rest of the frontend (React components, hooks, `auth-client.ts`), `bootstrap/database.ts`, `db/db.ts` and `routes/auth.ts` (bcrypt login) are not part of this model.
