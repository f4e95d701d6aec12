/**
 * The licence operations of `services/licensing.ts` that issue, list, change and delete
 * licences, and the helpers that the activation protocol shares with them: the requested-app
 * normalisation, the app resolution and the machine lock read back from a licence's metadata.
 * Each operation is a step from the tables before to its result and the tables after.
 */
module Licensing {
  import opened Wrappers
  import opened Text
  import opened Json
  import opened Encoding
  import opened Tables
  import opened Schema
  import opened AppNames
  import opened AppService
  import opened LicenseKeys

  const LicenseNotFoundMessage := "License not found"
  const LockKey := "lockedMachineId"

  /** `normalizeRequestedAppName`: the trimmed name, or `APP_NAME_REQUIRED` when it is blank. */
  function NormalizeAppName(appName: string): (r: Result<string, Failure>)
    ensures r.Err? <==> Trim(appName) == ""
    ensures r.Err? ==> r.error == AppNameRequired
    ensures r.Ok? ==> r.value == Trim(appName) && Trim(r.value) == r.value && r.value != ""
  {
    var normalized := Trim(appName);
    TrimIdempotent(appName);
    if normalized == "" then Err(AppNameRequired) else Ok(normalized)
  }

  /** `resolvedApp?.name || requestedAppName`: the name of the app the identifier matches, else the identifier. */
  function ResolveAppName(apps: seq<App>, requested: string): (r: string)
    ensures r == requested || exists i :: 0 <= i < |apps| && apps[i].name == r && MatchesIdentifier(apps[i], Trim(requested))
    ensures FindByIdentifier(apps, requested).None? ==> r == requested
  {
    match FindByIdentifier(apps, requested)
    case Some(app) => if app.name != "" then app.name else requested
    case None => requested
  }

  /**
   * The `lockedMachineId` read back from a licence's metadata: `JSON.parse` of non-empty
   * metadata, then `parsed.lockedMachineId?.trim()`. A parse failure, a missing or non-string
   * property (whose `.trim` call throws) and a blank lock all mean no lock.
   */
  function LockedMachineId(p: Primitives, metadata: Option<string>): (r: Option<string>)
    ensures r.Some? ==> r.value != "" && Trim(r.value) == r.value
    ensures metadata.None? || metadata == Some("") ==> r.None?
  {
    if metadata.None? || metadata.value == "" then None
    else match p.parse(metadata.value)
      case None => None
      case Some(parsed) =>
        match Get(parsed, LockKey)
        case Some(JStr(s)) =>
          TrimIdempotent(s);
          if Trim(s) != "" then Some(Trim(s)) else None
        case _ => None
  }

  /** `"machine_id_bound"` when the licence is locked, `"pre_generated"` otherwise. */
  datatype ActivationType = MachineIdBound | PreGenerated

  function TypeOfLock(lock: Option<string>): (t: ActivationType)
    ensures t == MachineIdBound <==> lock.Some?
  {
    if lock.Some? then MachineIdBound else PreGenerated
  }

  /** `license.expiresAt && license.expiresAt.getTime() < now`: a licence without expiry never expires. */
  predicate Expired(license: License, now: int) {
    license.expiresAt.Some? && license.expiresAt.value < now
  }

  /** `licenses.appName = appName AND licenses.licenseKey = key`. */
  function LicenseOfKey(appName: string, key: string): License -> bool {
    (l: License) => l.appName == appName && l.licenseKey == key
  }

  // ---- issueLicense ----

  /** What `issueLicense` is given; `None` stands for an absent property. */
  datatype IssueRequest = IssueRequest(appName: string, maxActivations: Option<int>, lockedMachineId: Option<string>,
                                       metadata: Option<Json>)

  /** `Math.max(1, input.maxActivations || 1)`: a missing or zero count is 1, and no count is below 1. */
  function IssueSeats(requested: Option<int>): (r: int)
    ensures r >= 1
    ensures requested.Some? && requested.value >= 1 ==> r == requested.value
    ensures requested.None? || requested.value < 1 ==> r == 1
  {
    var n := if requested.None? || requested.value == 0 then 1 else requested.value;
    if n > 1 then n else 1
  }

  /** `input.lockedMachineId?.trim() || undefined`. */
  function IssueLock(lockedMachineId: Option<string>): (r: Option<string>)
    ensures r.Some? ==> r.value != "" && Trim(r.value) == r.value
    ensures r.None? <==> lockedMachineId.None? || Trim(lockedMachineId.value) == ""
  {
    if lockedMachineId.Some? && Trim(lockedMachineId.value) != "" then
      TrimIdempotent(lockedMachineId.value);
      Some(Trim(lockedMachineId.value))
    else None
  }

  /**
   * `{...(metadata is an object ? metadata : {}), ...(lock ? { lockedMachineId } : {})}`: the
   * request's own properties (arrays included, since `typeof [] === "object"`), then the lock.
   */
  function MergedMetadata(metadata: Option<Json>, lock: Option<string>): Fields {
    var own := if metadata.Some? && (metadata.value.JObj? || metadata.value.JArr?) then OwnProperties(metadata.value) else [];
    var lockFields := if lock.Some? then [(LockKey, JStr(lock.value))] else [];
    Spread(Spread([], own), lockFields)
  }

  /** The stored metadata: the merged object as JSON, or null when it has no property. */
  function IssueMetadata(p: Primitives, metadata: Option<Json>, lock: Option<string>): Option<string> {
    var merged := MergedMetadata(metadata, lock);
    if |merged| > 0 then Some(p.stringify(JObj(merged))) else None
  }

  /** The licence row `issueLicense` inserts for the app `appName`. */
  function NewLicense(p: Primitives, licenses: seq<License>, appName: string, input: IssueRequest, id: string,
                      attempts: seq<seq<int>>, suffix: seq<byte>): License
    requires KeyDraws(attempts)
  {
    License(id, appName, UniqueKey(licenses, appName, attempts, suffix), LicenseActive, IssueSeats(input.maxActivations),
            None, IssueMetadata(p, input.metadata, IssueLock(input.lockedMachineId)))
  }

  /** The insert of the new licence, which the database refuses when its key is taken. */
  function InsertLicense(db: Db, license: License): (r: Outcome<License>)
    ensures r.result.Err? ==> r == Outcome(Err(DbConflict), db)
    ensures r.result.Ok? ==> r.result.value == license && r.db == db.(licenses := db.licenses + [license])
    ensures r.result.Err? <==> LicenseCollides(db.licenses, license)
  {
    if LicenseCollides(db.licenses, license) then Outcome(Err(DbConflict), db)
    else Outcome(Ok(license), db.(licenses := db.licenses + [license]))
  }

  /**
   * The app `issueLicense` issues for: a blank name is refused; the app the identifier matches,
   * else the app with that exact name, else a newly created one. Only the apps table can change.
   */
  function EnsureApp(db: Db, appName: string, appId: string): (r: Outcome<string>)
    requires FreshAppId(db, appId)
    ensures r.result == Err(AppNameRequired) <==> Trim(appName) == ""
    ensures r.db.licenses == db.licenses && r.db.activations == db.activations && r.db.logs == db.logs
  {
    match NormalizeAppName(appName)
    case Err(e) => Outcome(Err(e), db)
    case Ok(requested) =>
      match FindByIdentifier(db.apps, requested)
      case Some(app) => Outcome(Ok(app.name), db)
      case None =>
        var ensured := GetOrCreateApp(db, requested, appId);
        match ensured.result
        case Err(e) => Outcome(Err(e), ensured.db)
        case Ok(None) => Outcome(Err(AppNotFound), ensured.db)
        case Ok(Some(app)) => Outcome(Ok(app.name), ensured.db)
  }

  /** The name `issueLicense` uses is the name of an app in the tables after it. */
  lemma EnsuredAppExists(db: Db, appName: string, appId: string)
    requires FreshAppId(db, appId)
    requires EnsureApp(db, appName, appId).result.Ok?
    ensures var r := EnsureApp(db, appName, appId);
      exists i :: 0 <= i < |r.db.apps| && r.db.apps[i].name == r.result.value
  {
    var r := EnsureApp(db, appName, appId);
    var requested := Trim(appName);
    match FindByIdentifier(db.apps, requested)
    case Some(app) =>
      var i :| 0 <= i < |db.apps| && db.apps[i] == app;
      assert r.db.apps[i].name == r.result.value;
    case None =>
      var ensured := GetOrCreateApp(db, requested, appId);
      var app := ensured.result.value.value;
      var i :| 0 <= i < |ensured.db.apps| && ensured.db.apps[i] == app;
      assert r.db.apps[i].name == r.result.value;
  }

  lemma EnsureAppKeepsValid(db: Db, appName: string, appId: string)
    requires Valid(db) && FreshAppId(db, appId)
    ensures Valid(EnsureApp(db, appName, appId).db)
  {
    var requested := Trim(appName);
    if requested != "" && FindByIdentifier(db.apps, requested).None? {
      TrimIdempotent(appName);
      GetOrCreateKeepsValid(db, requested, appId);
      assert EnsureApp(db, appName, appId).db == GetOrCreateApp(db, requested, appId).db;
    }
  }

  /**
   * `issueLicense`: a new active licence without expiry is inserted under the ensured app's
   * name with a fresh key. A created app stays when the licence insert fails afterwards.
   */
  function Issue(p: Primitives, db: Db, input: IssueRequest, appId: string, licenseId: string,
                 attempts: seq<seq<int>>, suffix: seq<byte>): (r: Outcome<License>)
    requires FreshAppId(db, appId) && KeyDraws(attempts)
    ensures r.result == Err(AppNameRequired) <==> Trim(input.appName) == ""
    ensures r.result.Err? ==> r.db.licenses == db.licenses
    ensures r.result.Ok? ==> r.db.licenses == db.licenses + [r.result.value]
    ensures r.result.Ok? ==>
      && r.result.value.id == licenseId && r.result.value.status == LicenseActive
      && r.result.value.maxActivations == IssueSeats(input.maxActivations) && r.result.value.expiresAt == None
      && r.result.value.metadata == IssueMetadata(p, input.metadata, IssueLock(input.lockedMachineId))
    ensures var e := EnsureApp(db, input.appName, appId);
      r.result.Ok? ==> e.result.Ok? && r.result.value.appName == e.result.value
    ensures r.result.Ok? ==> r.result.value.licenseKey == UniqueKey(db.licenses, r.result.value.appName, attempts, suffix)
    ensures r.db.activations == db.activations && r.db.logs == db.logs
  {
    var ensured := EnsureApp(db, input.appName, appId);
    match ensured.result
    case Err(e) => Outcome(Err(e), ensured.db)
    case Ok(appName) => InsertLicense(ensured.db, NewLicense(p, ensured.db.licenses, appName, input, licenseId, attempts, suffix))
  }

  /** An issued licence carries the name of an app in the tables after the call. */
  lemma IssuedApp(p: Primitives, db: Db, input: IssueRequest, appId: string, licenseId: string,
                  attempts: seq<seq<int>>, suffix: seq<byte>)
    requires FreshAppId(db, appId) && KeyDraws(attempts)
    requires Issue(p, db, input, appId, licenseId, attempts, suffix).result.Ok?
    ensures var r := Issue(p, db, input, appId, licenseId, attempts, suffix);
      exists i :: 0 <= i < |r.db.apps| && r.db.apps[i].name == r.result.value.appName
  {
    EnsuredAppExists(db, input.appName, appId);
  }

  /**
   * The issued key is free for the app: the database accepted it, so no other licence of the
   * app holds it, and no licence has the new id.
   */
  lemma IssuedKeyFree(p: Primitives, db: Db, input: IssueRequest, appId: string, licenseId: string,
                      attempts: seq<seq<int>>, suffix: seq<byte>)
    requires FreshAppId(db, appId) && KeyDraws(attempts)
    requires Issue(p, db, input, appId, licenseId, attempts, suffix).result.Ok?
    ensures var l := Issue(p, db, input, appId, licenseId, attempts, suffix).result.value;
      && (forall j :: 0 <= j < |db.licenses| ==> LicenseAppKey(db.licenses[j]) != LicenseAppKey(l))
      && (forall j :: 0 <= j < |db.licenses| ==> db.licenses[j].id != licenseId)
  {
    var ensured := EnsureApp(db, input.appName, appId);
    var l := NewLicense(p, ensured.db.licenses, ensured.result.value, input, licenseId, attempts, suffix);
    assert !LicenseCollides(db.licenses, l);
  }

  /**
   * The issued key is the retry loop's choice: a fresh, 29-character generated key, or the
   * fallback built from the last draw and the random suffix.
   */
  lemma IssuedKeyChoice(p: Primitives, db: Db, input: IssueRequest, appId: string, licenseId: string,
                        attempts: seq<seq<int>>, suffix: seq<byte>)
    requires FreshAppId(db, appId) && KeyDraws(attempts)
    requires Issue(p, db, input, appId, licenseId, attempts, suffix).result.Ok?
    ensures var l := Issue(p, db, input, appId, licenseId, attempts, suffix).result.value;
      || l.licenseKey == FallbackKey(attempts[5], suffix)
      || (|l.licenseKey| == 29 && !KeyTaken(db.licenses, l.appName, l.licenseKey))
  {
    var l := Issue(p, db, input, appId, licenseId, attempts, suffix).result.value;
    UniqueKeyChoice(db.licenses, l.appName, attempts, suffix);
  }

  /** An accepted licence insert with at least one seat keeps the tables valid. */
  lemma InsertLicenseKeepsValid(db: Db, license: License)
    requires Valid(db) && license.maxActivations >= 1
    ensures Valid(InsertLicense(db, license).db)
  {
    if !LicenseCollides(db.licenses, license) {
      var after := db.licenses + [license];
      LicenseInsert(db.licenses, license);
      assert forall j :: 0 <= j < |db.licenses| ==> after[j] == db.licenses[j];
    }
  }

  /** Issuing keeps the tables valid: the app insert and the licence insert were accepted, and seats are at least 1. */
  lemma IssueKeepsValid(p: Primitives, db: Db, input: IssueRequest, appId: string, licenseId: string,
                        attempts: seq<seq<int>>, suffix: seq<byte>)
    requires Valid(db) && FreshAppId(db, appId) && KeyDraws(attempts)
    ensures Valid(Issue(p, db, input, appId, licenseId, attempts, suffix).db)
  {
    var ensured := EnsureApp(db, input.appName, appId);
    EnsureAppKeepsValid(db, input.appName, appId);
    if ensured.result.Ok? {
      var l := NewLicense(p, ensured.db.licenses, ensured.result.value, input, licenseId, attempts, suffix);
      InsertLicenseKeepsValid(ensured.db, l);
      assert Issue(p, db, input, appId, licenseId, attempts, suffix) == InsertLicense(ensured.db, l);
    }
  }

  /** Every value of the bindings is well formed. */
  ghost predicate ValuesWellFormed(fields: Fields) {
    forall i :: 0 <= i < |fields| ==> WellFormed(fields[i].1)
  }

  lemma SpreadValues(acc: Fields, fields: Fields)
    requires ValuesWellFormed(acc) && ValuesWellFormed(fields)
    ensures ValuesWellFormed(Spread(acc, fields))
  {
    var r := Spread(acc, fields);
    forall i | 0 <= i < |r| ensures WellFormed(r[i].1) {
      if r[i] in acc {
        var k :| 0 <= k < |acc| && acc[k] == r[i];
      } else {
        var k :| 0 <= k < |fields| && fields[k] == r[i];
      }
    }
  }

  /** The merged properties are well formed when the request's metadata is: they come from it or are the lock. */
  lemma MergedWellFormed(metadata: Option<Json>, lock: Option<string>)
    requires metadata.Some? ==> WellFormed(metadata.value)
    ensures WellFormed(JObj(MergedMetadata(metadata, lock)))
  {
    var own := if metadata.Some? && (metadata.value.JObj? || metadata.value.JArr?) then OwnProperties(metadata.value) else [];
    var lockFields := if lock.Some? then [(LockKey, JStr(lock.value))] else [];
    assert ValuesWellFormed(own);
    SpreadValues([], own);
    SpreadValues(Spread([], own), lockFields);
  }

  /** A stored lock reads back as itself: the merged metadata is well formed, so parsing returns it. */
  lemma IssueMetadataLock(p: Primitives, metadata: Option<Json>, lock: Option<string>)
    requires Lawful(p)
    requires metadata.Some? ==> WellFormed(metadata.value)
    requires lock.Some? && lock.value != "" && Trim(lock.value) == lock.value
    ensures LockedMachineId(p, IssueMetadata(p, metadata, lock)) == lock
  {
    var merged := MergedMetadata(metadata, lock);
    var lockFields := [(LockKey, JStr(lock.value))];
    assert Lookup(lockFields, LockKey) == Some(JStr(lock.value));
    assert Lookup(merged, LockKey) == Some(JStr(lock.value));
    MergedWellFormed(metadata, lock);
    assert p.parse(p.stringify(JObj(merged))) == Some(JObj(merged));
  }

  /**
   * The lock issued is the lock enforced: a licence issued with a non-blank `lockedMachineId`
   * reads back that lock, trimmed, whatever the request's metadata held.
   */
  lemma IssuedLockEnforced(p: Primitives, db: Db, input: IssueRequest, appId: string, licenseId: string,
                           attempts: seq<seq<int>>, suffix: seq<byte>)
    requires Lawful(p)
    requires input.metadata.Some? ==> WellFormed(input.metadata.value)
    requires FreshAppId(db, appId) && KeyDraws(attempts)
    requires IssueLock(input.lockedMachineId).Some?
    requires Issue(p, db, input, appId, licenseId, attempts, suffix).result.Ok?
    ensures var l := Issue(p, db, input, appId, licenseId, attempts, suffix).result.value;
      LockedMachineId(p, l.metadata) == IssueLock(input.lockedMachineId)
  {
    IssueMetadataLock(p, input.metadata, IssueLock(input.lockedMachineId));
  }

  /** With no lock and no metadata, a licence is stored without metadata and is not locked. */
  lemma UnlockedIssue(p: Primitives, db: Db, input: IssueRequest, appId: string, licenseId: string,
                      attempts: seq<seq<int>>, suffix: seq<byte>)
    requires FreshAppId(db, appId) && KeyDraws(attempts)
    requires IssueLock(input.lockedMachineId).None? && input.metadata.None?
    requires Issue(p, db, input, appId, licenseId, attempts, suffix).result.Ok?
    ensures var l := Issue(p, db, input, appId, licenseId, attempts, suffix).result.value;
      l.metadata == None && LockedMachineId(p, l.metadata) == None
  {
    UnlockedMetadata(p);
  }

  /** No lock and no metadata merge to no properties, stored as null. */
  lemma UnlockedMetadata(p: Primitives)
    ensures IssueMetadata(p, None, None) == None && LockedMachineId(p, None) == None
  {
    assert Spread([], []) == [];
    assert MergedMetadata(None, None) == [];
  }

  // ---- listLicenses ----

  /** `needle` occurs in `hay` as a contiguous run. */
  predicate IsInfix(needle: string, hay: string)
    decreases |hay|
  {
    |needle| <= |hay| && (hay[..|needle|] == needle || IsInfix(needle, hay[1..]))
  }

  /** `needle` occurs in `hay` at position `i`. */
  predicate InfixAt(needle: string, hay: string, i: int) {
    0 <= i <= |hay| - |needle| && hay[i..i + |needle|] == needle
  }

  lemma {:induction false} IsInfixIff(needle: string, hay: string)
    ensures IsInfix(needle, hay) <==> exists i :: InfixAt(needle, hay, i)
    decreases |hay|
  {
    var n := |needle|;
    if n <= |hay| && hay[..n] == needle {
      assert InfixAt(needle, hay, 0);
    } else if n <= |hay| {
      IsInfixIff(needle, hay[1..]);
      if exists i :: InfixAt(needle, hay, i) {
        var i :| InfixAt(needle, hay, i);
        assert hay[1..][i - 1..i - 1 + n] == hay[i..i + n];
        assert InfixAt(needle, hay[1..], i - 1);
      }
      if IsInfix(needle, hay[1..]) {
        var i :| InfixAt(needle, hay[1..], i);
        assert hay[1..][i..i + n] == hay[i + 1..i + 1 + n];
        assert InfixAt(needle, hay, i + 1);
      }
    }
  }

  /** `ILIKE '%needle%'` on a pattern without wildcards: a case-insensitive substring match. */
  predicate ILikeContains(value: string, needle: string) {
    IsInfix(ToLower(needle), ToLower(value))
  }

  /** The rows `listLicenses(appName)` selects: all of them, or those whose app name contains the trimmed filter. */
  function LicenseListed(filter: Option<string>): License -> bool {
    (l: License) => filter.None? || Trim(filter.value) == "" || ILikeContains(l.appName, Trim(filter.value))
  }

  /** A licence with its usage: `activeActivations` and `remainingActivations`. */
  datatype LicenseUsage = LicenseUsage(license: License, activeActivations: nat, remainingActivations: int)

  /** Seats in use are the licence's own activations whose status is exactly `active`. */
  function Usage(activations: seq<Activation>, l: License): (u: LicenseUsage)
    ensures u.license == l && u.remainingActivations >= 0
    ensures u.activeActivations <= |activations|
    ensures u.remainingActivations == 0 || u.remainingActivations == l.maxActivations - u.activeActivations
    ensures u.activeActivations + u.remainingActivations >= l.maxActivations
  {
    var used := Count(activations, ActiveOfLicense(l.appName, l.licenseKey));
    LicenseUsage(l, used, Remaining(l.maxActivations, used))
  }

  /** An activation of another licence, or one that is not active, takes no seat. */
  lemma UsageCountsOwnActive(activations: seq<Activation>, l: License, a: Activation)
    requires a.appName != l.appName || a.licenseKey != l.licenseKey || a.status != Active
    ensures Usage(activations + [a], l).activeActivations == Usage(activations, l).activeActivations
  {
    CountAppend(activations, a, ActiveOfLicense(l.appName, l.licenseKey));
  }

  /** `listLicenses(appName)`: the selected licences, in table order, each with its usage. */
  function ListLicenses(db: Db, filter: Option<string>): (r: seq<LicenseUsage>)
    ensures forall i :: 0 <= i < |r| ==> r[i].license in db.licenses && LicenseListed(filter)(r[i].license)
    ensures forall j :: 0 <= j < |db.licenses| && LicenseListed(filter)(db.licenses[j]) ==>
      exists i :: 0 <= i < |r| && r[i].license == db.licenses[j]
    ensures forall i :: 0 <= i < |r| ==> r[i] == Usage(db.activations, r[i].license)
  {
    UsagesWhere(db, LicenseListed(filter))
  }

  /** Each row with its usage, in order. */
  function UsagesOf(activations: seq<Activation>, rows: seq<License>): (r: seq<LicenseUsage>)
    ensures |r| == |rows|
    ensures forall i :: 0 <= i < |r| ==> r[i] == Usage(activations, rows[i])
  {
    if rows == [] then [] else [Usage(activations, rows[0])] + UsagesOf(activations, rows[1..])
  }

  /** The licences a condition selects, in table order, each with its usage. */
  function UsagesWhere(db: Db, sel: License -> bool): (r: seq<LicenseUsage>)
    ensures forall i :: 0 <= i < |r| ==> r[i].license in db.licenses && sel(r[i].license)
    ensures forall j :: 0 <= j < |db.licenses| && sel(db.licenses[j]) ==>
      exists i :: 0 <= i < |r| && r[i].license == db.licenses[j]
    ensures forall i :: 0 <= i < |r| ==> r[i] == Usage(db.activations, r[i].license)
  {
    var rows := SelectWhere(db.licenses, sel);
    var r := UsagesOf(db.activations, rows);
    assert forall j :: 0 <= j < |db.licenses| && sel(db.licenses[j]) ==>
      exists i :: 0 <= i < |r| && r[i].license == db.licenses[j] by {
      forall j | 0 <= j < |db.licenses| && sel(db.licenses[j])
        ensures exists i :: 0 <= i < |r| && r[i].license == db.licenses[j]
      {
        var i :| 0 <= i < |rows| && rows[i] == db.licenses[j];
        assert r[i].license == db.licenses[j];
      }
    }
    r
  }

  /** Without a filter (or with a blank one) every licence is listed, in table order. */
  lemma ListAll(db: Db, filter: Option<string>)
    requires filter.None? || Trim(filter.value) == ""
    ensures |ListLicenses(db, filter)| == |db.licenses|
    ensures forall i :: 0 <= i < |db.licenses| ==> ListLicenses(db, filter)[i].license == db.licenses[i]
  {
    SelectAll(db.licenses, LicenseListed(filter));
  }

  // ---- setLicenseStatus, getLicenseById, updateLicenseById ----

  function SetStatus(status: LicenseStatus): License -> License {
    (l: License) => l.(status := status)
  }

  /** `setLicenseStatus(id, status)`: every licence with the id gets the status; nothing else changes. */
  function SetLicenseStatus(db: Db, id: string, status: LicenseStatus): (r: Db)
    ensures r.apps == db.apps && r.activations == db.activations && r.logs == db.logs
    ensures |r.licenses| == |db.licenses|
    ensures forall j :: 0 <= j < |db.licenses| ==>
      r.licenses[j].status == (if db.licenses[j].id == id then status else db.licenses[j].status)
    ensures forall j :: 0 <= j < |db.licenses| ==> r.licenses[j] == db.licenses[j].(status := r.licenses[j].status)
  {
    db.(licenses := UpdateWhere(db.licenses, LicenseWithId(id), SetStatus(status)))
  }

  lemma SetLicenseStatusKeepsValid(db: Db, id: string, status: LicenseStatus)
    requires Valid(db)
    ensures Valid(SetLicenseStatus(db, id, status))
  {
    UniqueUpdate(db.licenses, LicenseWithId(id), SetStatus(status), LicenseId);
    UniqueUpdate(db.licenses, LicenseWithId(id), SetStatus(status), LicenseAppKey);
  }

  /** `getLicenseById(id)`: the first licence with the id. */
  function GetLicense(db: Db, id: string): (r: Option<License>)
    ensures r.Some? ==> r.value in db.licenses && r.value.id == id
    ensures r.None? <==> forall j :: 0 <= j < |db.licenses| ==> db.licenses[j].id != id
  {
    match First(db.licenses, LicenseWithId(id))
    case None => None
    case Some(i) => Some(db.licenses[i])
  }

  /** `Math.max(1, input.maxActivations || existing.maxActivations)`. */
  function NextSeats(requested: Option<int>, existing: int): (r: int)
    ensures r >= 1
    ensures requested.Some? && requested.value >= 1 ==> r == requested.value
    ensures (requested.None? || requested.value == 0) && existing >= 1 ==> r == existing
  {
    var n := if requested.None? || requested.value == 0 then existing else requested.value;
    if n > 1 then n else 1
  }

  function SetSeatsAndStatus(seats: int, status: LicenseStatus): License -> License {
    (l: License) => l.(maxActivations := seats, status := status)
  }

  /**
   * `updateLicenseById(id, {maxActivations, status})`: an unknown id is refused with no change;
   * otherwise the licence gets the new seat count (at least 1) and status, each defaulting to its
   * current value. Activations are not touched, even when the new count is below the seats in use.
   */
  function UpdateLicense(db: Db, id: string, seats: Option<int>, status: Option<LicenseStatus>): (r: Outcome<License>)
    ensures r.result.Err? <==> GetLicense(db, id).None?
    ensures r.result.Err? ==> r == Outcome(Err(Refused(LicenseNotFoundMessage)), db)
    ensures r.result.Ok? ==>
      var existing := GetLicense(db, id).value;
      && r.result.value == existing.(maxActivations := NextSeats(seats, existing.maxActivations),
                                     status := if status.Some? then status.value else existing.status)
      && r.result.value in r.db.licenses
    ensures r.db.apps == db.apps && r.db.activations == db.activations && r.db.logs == db.logs
    ensures |r.db.licenses| == |db.licenses|
  {
    match First(db.licenses, LicenseWithId(id))
    case None => Outcome(Err(Refused(LicenseNotFoundMessage)), db)
    case Some(i) =>
      var existing := db.licenses[i];
      var nextSeats := NextSeats(seats, existing.maxActivations);
      var nextStatus := if status.Some? then status.value else existing.status;
      var licenses := UpdateWhere(db.licenses, LicenseWithId(id), SetSeatsAndStatus(nextSeats, nextStatus));
      Outcome(Ok(licenses[i]), db.(licenses := licenses))
  }

  /** Updating keeps the tables valid: no key changes, and the seat counts stay at least 1. */
  lemma UpdateLicenseKeepsValid(db: Db, id: string, seats: Option<int>, status: Option<LicenseStatus>)
    requires Valid(db)
    ensures Valid(UpdateLicense(db, id, seats, status).db)
  {
    match First(db.licenses, LicenseWithId(id))
    case None =>
    case Some(i) =>
      var existing := db.licenses[i];
      var nextSeats := NextSeats(seats, existing.maxActivations);
      var nextStatus := if status.Some? then status.value else existing.status;
      var f := SetSeatsAndStatus(nextSeats, nextStatus);
      UniqueUpdate(db.licenses, LicenseWithId(id), f, LicenseId);
      UniqueUpdate(db.licenses, LicenseWithId(id), f, LicenseAppKey);
  }

  /** Rows with another id keep every field. */
  lemma UpdateLicenseKeepsOthers(db: Db, id: string, seats: Option<int>, status: Option<LicenseStatus>)
    ensures var r := UpdateLicense(db, id, seats, status);
      forall j :: 0 <= j < |db.licenses| && db.licenses[j].id != id ==> r.db.licenses[j] == db.licenses[j]
  {
  }

  // ---- deleteLicenseById ----

  /** The tables after `deleteLicenseById` removed `existing` (found by its id). */
  function DeletedLicense(db: Db, existing: License, id: string): Db {
    var ids := ActivationIdsWhere(db.activations, ActivationOfLicense(existing.appName, existing.licenseKey));
    var logs := if |ids| > 0 then DeleteWhere(db.logs, LogOfAny(ids)) else db.logs;
    Db(db.apps,
       DeleteWhere(db.licenses, LicenseWithId(id)),
       DeleteWhere(db.activations, ActivationOfLicense(existing.appName, existing.licenseKey)),
       logs)
  }

  /**
   * `deleteLicenseById(id)`: an unknown id is refused with no change; otherwise the logs of the
   * licence's activations, the activations with its app and key, and the licence are deleted.
   */
  function DeleteLicense(db: Db, id: string): (r: Outcome<()>)
    ensures r.result.Err? <==> GetLicense(db, id).None?
    ensures r.result.Err? ==> r == Outcome(Err(Refused(LicenseNotFoundMessage)), db)
    ensures r.db.apps == db.apps
  {
    match First(db.licenses, LicenseWithId(id))
    case None => Outcome(Err(Refused(LicenseNotFoundMessage)), db)
    case Some(i) => Outcome(Ok(()), DeletedLicense(db, db.licenses[i], id))
  }

  /** The log belongs to no activation with the app and key. */
  predicate OfOtherLicenses(activations: seq<Activation>, appName: string, key: string, g: Log) {
    forall k :: 0 <= k < |activations| && activations[k].appName == appName && activations[k].licenseKey == key ==>
      activations[k].id != g.activationId
  }

  /**
   * The delete cascade: no licence with the id, no activation with its app and key, and no log of
   * those activations is left; every other licence, activation and log is kept.
   */
  lemma DeleteLicenseCascade(db: Db, id: string, i: nat)
    requires First(db.licenses, LicenseWithId(id)) == Some(i)
    ensures var after := DeleteLicense(db, id).db;
      var l := db.licenses[i];
      && (forall j :: 0 <= j < |after.licenses| ==> after.licenses[j].id != id)
      && (forall j :: 0 <= j < |after.activations| ==> !ActivationOfLicense(l.appName, l.licenseKey)(after.activations[j]))
      && (forall j :: 0 <= j < |after.logs| ==> OfOtherLicenses(db.activations, l.appName, l.licenseKey, after.logs[j]))
      && (forall j :: 0 <= j < |db.licenses| && db.licenses[j].id != id ==> db.licenses[j] in after.licenses)
      && (forall j :: 0 <= j < |db.activations| && !ActivationOfLicense(l.appName, l.licenseKey)(db.activations[j]) ==>
            db.activations[j] in after.activations)
      && (forall j :: 0 <= j < |db.logs| && OfOtherLicenses(db.activations, l.appName, l.licenseKey, db.logs[j]) ==>
            db.logs[j] in after.logs)
  {
    var after := DeleteLicense(db, id).db;
    var l := db.licenses[i];
    var ids := ActivationIdsWhere(db.activations, ActivationOfLicense(l.appName, l.licenseKey));
    if |ids| == 0 {
      assert after.logs == db.logs;
      forall j | 0 <= j < |after.logs| ensures OfOtherLicenses(db.activations, l.appName, l.licenseKey, after.logs[j]) {
      }
    } else {
      forall j | 0 <= j < |after.logs| ensures OfOtherLicenses(db.activations, l.appName, l.licenseKey, after.logs[j]) {
        assert !LogOfAny(ids)(after.logs[j]);
        forall k | 0 <= k < |db.activations| && db.activations[k].appName == l.appName && db.activations[k].licenseKey == l.licenseKey
          ensures db.activations[k].id != after.logs[j].activationId
        {
          assert db.activations[k].id in ids;
        }
      }
      forall j | 0 <= j < |db.logs| && OfOtherLicenses(db.activations, l.appName, l.licenseKey, db.logs[j])
        ensures db.logs[j] in after.logs
      {
        assert !LogOfAny(ids)(db.logs[j]);
      }
    }
  }

  lemma DeleteLicenseKeepsValid(db: Db, id: string)
    requires Valid(db)
    ensures Valid(DeleteLicense(db, id).db)
  {
    match First(db.licenses, LicenseWithId(id))
    case None =>
    case Some(i) =>
      var l := db.licenses[i];
      var p := ActivationOfLicense(l.appName, l.licenseKey);
      var ids := ActivationIdsWhere(db.activations, p);
      UniqueDelete(db.licenses, LicenseWithId(id), LicenseId);
      UniqueDelete(db.licenses, LicenseWithId(id), LicenseAppKey);
      UniqueDelete(db.activations, p, ActivationId);
      UniqueDelete(db.activations, p, ActivationTriple);
      UniqueDelete(db.logs, LogOfAny(ids), LogId);
  }
}
