/**
 * The activation protocol of `services/licensing.ts`: `activateLicense` (the ordered checks, the
 * seat rule, the reuse of the row of an `(appName, licenseKey, machineId)` triple, the log entry
 * and the token), `validateActivation` (which writes nothing) and `deactivateActivation`.
 * `now` is `Date.now()`, the ids are what `crypto.randomUUID()` returns and `nonce` is the
 * token's `randomBytes(16)`.
 */
module ActivationService {
  import opened Wrappers
  import opened Text
  import opened Json
  import opened Encoding
  import opened Tables
  import opened Schema
  import opened AppNames
  import opened Licensing
  import LicenseToken
  import Jws

  const LicenseNotActiveMessage := "License is not active"
  const LicenseExpiredMessage := "License expired"
  const LockedMessage := "License is locked to another machine"
  const LimitMessage := "Activation limit reached"
  const InvalidTokenMessage := "Invalid or expired activation token"
  const MismatchMessage := "Activation token does not match app or machine"
  const ActivationNotActiveMessage := "Activation not active"

  /** The token codec's primitives, `LICENSE_TOKEN_SECRET`, and `activationTokenTtlDays`. */
  datatype Keys = Keys(p: Primitives, secret: string, ttlDays: int)

  /** What `activateLicense` is given; `metadata` is `None` when absent. */
  datatype ActivateRequest = ActivateRequest(appName: string, licenseKey: string, machineId: string, appVersion: string,
                                             metadata: Option<Json>)

  /** A passed check: the resolved app name, the licence, its lock and the triple's row, if any. */
  datatype Admission = Admission(appName: string, license: License, lock: Option<string>, existing: Option<nat>)

  /** The `data` of a successful activation. */
  datatype Grant = Grant(activationToken: string, tokenExpiresAt: int, activationId: string, appName: string,
                         machineId: string, license: License, activationType: ActivationType,
                         maxActivations: int, usedActivations: nat, remainingActivations: int)

  /** The `(appName, licenseKey, machineId)` triple of a request, after the app name is resolved. */
  function TripleOf(appName: string, input: ActivateRequest): Activation -> bool {
    ActivationOfMachine(appName, input.licenseKey, input.machineId)
  }

  /**
   * The licence checks of `activateLicense`, in order: not active (403), expired (403), locked to
   * another machine (403). On success, the licence's lock.
   */
  function LicenseGate(p: Primitives, license: License, machineId: string, now: int): (r: Result<Option<string>, Failure>)
    ensures var lock := LockedMachineId(p, license.metadata);
      r.Ok? <==> license.status == LicenseActive && !Expired(license, now) && (lock.None? || lock.value == machineId)
    ensures r.Ok? ==> r.value == LockedMachineId(p, license.metadata)
  {
    if license.status != LicenseActive then Err(Rejected(403, LicenseNotActiveMessage))
    else if Expired(license, now) then Err(Rejected(403, LicenseExpiredMessage))
    else
      var lock := LockedMachineId(p, license.metadata);
      if lock.Some? && lock.value != machineId then Err(Rejected(403, LockedMessage))
      else Ok(lock)
  }

  /**
   * The seat check of `activateLicense`: a triple that has a row, whatever its status, always has
   * a seat; a new triple needs fewer active rows of the licence than its seats (409).
   */
  function SeatGate(db: Db, appName: string, input: ActivateRequest, license: License, lock: Option<string>)
    : (r: Result<Admission, Failure>)
    ensures r.Ok? ==> r.value == Admission(appName, license, lock, First(db.activations, TripleOf(appName, input)))
    ensures r.Err? <==> First(db.activations, TripleOf(appName, input)).None? &&
                        Count(db.activations, ActiveOfLicense(appName, input.licenseKey)) >= license.maxActivations
    ensures r.Err? ==> r.error == Rejected(409, LimitMessage)
  {
    var existing := First(db.activations, TripleOf(appName, input));
    var activeCount := Count(db.activations, ActiveOfLicense(appName, input.licenseKey));
    var hasSeat := existing.Some? || activeCount < license.maxActivations;
    if !hasSeat then Err(Rejected(409, LimitMessage))
    else Ok(Admission(appName, license, lock, existing))
  }

  /** The checks of `activateLicense` once the app name is resolved: a missing licence (404), then the licence and the seat. */
  function AdmitFor(p: Primitives, db: Db, appName: string, input: ActivateRequest, now: int): (r: Result<Admission, Failure>)
    ensures r.Ok? ==> r.value.appName == appName && First(db.licenses, LicenseOfKey(appName, input.licenseKey)).Some?
    ensures r.Ok? ==> r.value.license == db.licenses[First(db.licenses, LicenseOfKey(appName, input.licenseKey)).value]
    ensures r.Ok? ==> LicenseGate(p, r.value.license, input.machineId, now) == Ok(r.value.lock)
    ensures r.Ok? ==> SeatGate(db, appName, input, r.value.license, r.value.lock) == r
  {
    match First(db.licenses, LicenseOfKey(appName, input.licenseKey))
    case None => Err(Rejected(404, LicenseNotFoundMessage))
    case Some(i) =>
      match LicenseGate(p, db.licenses[i], input.machineId, now)
      case Err(e) => Err(e)
      case Ok(lock) => SeatGate(db, appName, input, db.licenses[i], lock)
  }

  /** The checks of `activateLicense`, in order: a blank app name first. */
  function Admit(p: Primitives, db: Db, input: ActivateRequest, now: int): (r: Result<Admission, Failure>)
    ensures r.Ok? ==> Trim(input.appName) != "" && r == AdmitFor(p, db, ResolveAppName(db.apps, Trim(input.appName)), input, now)
    ensures r.Ok? ==> r.value.existing == First(db.activations, TripleOf(r.value.appName, input))
    ensures r.Ok? ==> r.value.existing.Some? ==> r.value.existing.value < |db.activations|
  {
    match NormalizeAppName(input.appName)
    case Err(e) => Err(e)
    case Ok(requested) => AdmitFor(p, db, ResolveAppName(db.apps, requested), input, now)
  }

  /** `metadata?.shopName || null`. */
  function ShopName(metadata: Option<Json>): Option<Json> {
    if metadata.Some? && Truthy(Get(metadata.value, "shopName")) then Get(metadata.value, "shopName") else None
  }

  /** `input.metadata ? JSON.stringify(input.metadata) : ...`. */
  function MetadataText(p: Primitives, metadata: Option<Json>): Option<string> {
    if Truthy(metadata) then Some(p.stringify(metadata.value)) else None
  }

  /** `license.expiresAt || new Date(now + ttlDays * 24 * 60 * 60 * 1000)`. */
  function TokenExpiry(license: License, now: int, ttlDays: int): int {
    if license.expiresAt.Some? then license.expiresAt.value else now + ttlDays * 86400000
  }

  /** A token expires with its licence; without a licence expiry, at least one day after `now`. */
  lemma TokenExpiryRule(license: License, now: int, ttlDays: int)
    ensures license.expiresAt.Some? ==> TokenExpiry(license, now, ttlDays) == license.expiresAt.value
    ensures license.expiresAt.None? && ttlDays >= 1 ==> TokenExpiry(license, now, ttlDays) >= now + 86400000
  {
  }

  /** The `UPDATE` of the triple's row: the new version, shop and metadata (else the old one), active since `now`. */
  function Reactivate(appVersion: string, shopName: Option<Json>, metadata: Option<string>, now: int, expiresAt: Option<int>)
    : Activation -> Activation
  {
    (a: Activation) => a.(appVersion := appVersion, shopName := shopName, status := Active,
                          metadata := if metadata.Some? then metadata else a.metadata,
                          activatedAt := Some(now), expiresAt := expiresAt)
  }

  /** The activation table after the update of the triple's row or the insert of a new one. */
  function ActivatedRows(p: Primitives, db: Db, input: ActivateRequest, adm: Admission, now: int, newId: string): seq<Activation>
    requires adm.existing.Some? ==> adm.existing.value < |db.activations|
  {
    var shop := ShopName(input.metadata);
    var text := MetadataText(p, input.metadata);
    if adm.existing.Some? then
      UpdateWhere(db.activations, ActivationWithId(db.activations[adm.existing.value].id),
                  Reactivate(input.appVersion, shop, text, now, adm.license.expiresAt))
    else
      db.activations + [Activation(newId, adm.appName, input.appVersion, input.licenseKey, input.machineId, shop, Active,
                                   text, Some(now), adm.license.expiresAt)]
  }

  /** `existingActivation?.id || crypto.randomUUID()`. */
  function GrantedId(db: Db, adm: Admission, newId: string): string
    requires adm.existing.Some? ==> adm.existing.value < |db.activations|
  {
    if adm.existing.Some? && db.activations[adm.existing.value].id != "" then db.activations[adm.existing.value].id else newId
  }

  /** The log entry of an activation: `reactivated` when the triple had a row, with the app version. */
  function ActivationLog(p: Primitives, logId: string, activationId: string, existed: bool, appVersion: string): Log {
    Log(logId, activationId, if existed then Reactivated else Activated, Some(p.stringify(JObj([("appVersion", JStr(appVersion))]))))
  }

  /** What `activateLicense` does once the checks have passed. */
  function Admitted(keys: Keys, db: Db, input: ActivateRequest, adm: Admission, now: int, newId: string, logId: string,
                    nonce: seq<byte>): Outcome<Grant>
    requires adm.existing.Some? ==> adm.existing.value < |db.activations|
    requires |nonce| == 16
  {
    var id := GrantedId(db, adm, newId);
    var activations := ActivatedRows(keys.p, db, input, adm, now, newId);
    var log := ActivationLog(keys.p, logId, id, adm.existing.Some?, input.appVersion);
    var expiry := TokenExpiry(adm.license, now, keys.ttlDays);
    var token := LicenseToken.Sign(keys.p, keys.secret, nonce,
                                   LicenseToken.SignRequest(adm.license.id, adm.appName, input.machineId, expiry), now);
    var used := Count(activations, ActiveOfLicense(adm.appName, input.licenseKey));
    var grant := Grant(token, expiry, id, adm.appName, input.machineId, adm.license, TypeOfLock(adm.lock),
                       adm.license.maxActivations, used, Remaining(adm.license.maxActivations, used));
    Outcome(Ok(grant), db.(activations := activations, logs := db.logs + [log]))
  }

  /**
   * `activateLicense`: the checks, then the triple's row updated in place (or a new row
   * inserted), one log entry appended and a token signed. A failed check writes nothing.
   */
  function Activate(keys: Keys, db: Db, input: ActivateRequest, now: int, newId: string, logId: string,
                    nonce: seq<byte>): (r: Outcome<Grant>)
    requires FreshActivationId(db, newId) && FreshLogId(db, logId) && |nonce| == 16
    ensures r.result.Err? ==> r.db == db && Admit(keys.p, db, input, now) == Err(r.result.error)
    ensures r.result.Ok? <==> Admit(keys.p, db, input, now).Ok?
    ensures r.db.apps == db.apps && r.db.licenses == db.licenses
  {
    match Admit(keys.p, db, input, now)
    case Err(e) => Outcome(Err(e), db)
    case Ok(adm) => Admitted(keys, db, input, adm, now, newId, logId, nonce)
  }


  /** The failure order of `activateLicense`: each check fails exactly when the earlier ones pass and it does not. */
  lemma ActivateOrder(p: Primitives, db: Db, input: ActivateRequest, now: int)
    ensures var r := Admit(p, db, input, now);
      var requested := Trim(input.appName);
      var appName := ResolveAppName(db.apps, requested);
      var found := First(db.licenses, LicenseOfKey(appName, input.licenseKey));
      && (requested == "" ==> r == Err(AppNameRequired))
      && (requested != "" && found.None? ==> r == Err(Rejected(404, LicenseNotFoundMessage)))
      && (requested != "" && found.Some? ==>
            var license := db.licenses[found.value];
            var lock := LockedMachineId(p, license.metadata);
            var hasSeat := First(db.activations, TripleOf(appName, input)).Some? ||
                           Count(db.activations, ActiveOfLicense(appName, input.licenseKey)) < license.maxActivations;
            && (license.status != LicenseActive ==> r == Err(Rejected(403, LicenseNotActiveMessage)))
            && (license.status == LicenseActive && Expired(license, now) ==> r == Err(Rejected(403, LicenseExpiredMessage)))
            && (license.status == LicenseActive && !Expired(license, now) && lock.Some? && lock.value != input.machineId ==>
                  r == Err(Rejected(403, LockedMessage)))
            && (license.status == LicenseActive && !Expired(license, now) && (lock.None? || lock.value == input.machineId) ==>
                  (r == Err(Rejected(409, LimitMessage)) <==> !hasSeat) && (r.Ok? <==> hasSeat)))
  {
    var requested := Trim(input.appName);
    if requested != "" {
      assert Admit(p, db, input, now) == AdmitFor(p, db, ResolveAppName(db.apps, requested), input, now);
    }
  }

  /** The admitted licence is the first licence of the resolved app with the key, active, unexpired, and not locked to another machine. */
  lemma AdmittedLicense(p: Primitives, db: Db, input: ActivateRequest, now: int)
    requires Admit(p, db, input, now).Ok?
    ensures var adm := Admit(p, db, input, now).value;
      var found := First(db.licenses, LicenseOfKey(adm.appName, input.licenseKey));
      && Trim(input.appName) != "" && adm.appName == ResolveAppName(db.apps, Trim(input.appName))
      && found.Some? && adm.license == db.licenses[found.value]
      && adm.license.status == LicenseActive && !Expired(adm.license, now)
      && adm.lock == LockedMachineId(p, adm.license.metadata)
      && (adm.lock.None? || adm.lock.value == input.machineId)
  {
    var adm := Admit(p, db, input, now).value;
    assert LicenseGate(p, adm.license, input.machineId, now) == Ok(adm.lock);
  }

  /**
   * The seat rule: a machine without a row is admitted only while fewer seats than allowed are in
   * use; a machine with a row is admitted whatever the count.
   */
  lemma SeatRule(p: Primitives, db: Db, input: ActivateRequest, now: int)
    requires Admit(p, db, input, now).Ok?
    ensures var adm := Admit(p, db, input, now).value;
      adm.existing.None? ==> Count(db.activations, ActiveOfLicense(adm.appName, input.licenseKey)) < adm.license.maxActivations
  {
    var adm := Admit(p, db, input, now).value;
    assert SeatGate(db, adm.appName, input, adm.license, adm.lock) == Ok(adm);
  }

  /** The new activations table: the triple's row is the first with the triple, active, and has the granted id. */
  lemma ActivatedRow(p: Primitives, db: Db, input: ActivateRequest, adm: Admission, now: int, newId: string)
    requires adm.existing == First(db.activations, TripleOf(adm.appName, input))
    requires adm.existing.Some? ==> adm.existing.value < |db.activations|
    requires adm.existing.Some? ==> db.activations[adm.existing.value].id != ""
    ensures var rows := ActivatedRows(p, db, input, adm, now, newId);
      var k := if adm.existing.Some? then adm.existing.value else |db.activations|;
      && First(rows, TripleOf(adm.appName, input)) == Some(k)
      && rows[k].status == Active && rows[k].id == GrantedId(db, adm, newId)
      && rows[k].activatedAt == Some(now) && rows[k].expiresAt == adm.license.expiresAt
      && (adm.existing.Some? ==> |rows| == |db.activations| && rows[k].id == db.activations[k].id)
      && (adm.existing.None? ==> |rows| == |db.activations| + 1 && rows[..k] == db.activations)
  {
    if adm.existing.Some? {
      ReactivatedRow(p, db, input, adm, now, newId);
    } else {
      InsertedRow(p, db, input, adm, now, newId);
    }
  }

  lemma ReactivatedRow(p: Primitives, db: Db, input: ActivateRequest, adm: Admission, now: int, newId: string)
    requires adm.existing == First(db.activations, TripleOf(adm.appName, input))
    requires adm.existing.Some? && adm.existing.value < |db.activations|
    ensures var rows := ActivatedRows(p, db, input, adm, now, newId);
      var k := adm.existing.value;
      && |rows| == |db.activations| && First(rows, TripleOf(adm.appName, input)) == Some(k)
      && rows[k].status == Active && rows[k].id == db.activations[k].id
      && rows[k].activatedAt == Some(now) && rows[k].expiresAt == adm.license.expiresAt
  {
    var rows := ActivatedRows(p, db, input, adm, now, newId);
    var t := TripleOf(adm.appName, input);
    var k := adm.existing.value;
    assert forall j :: 0 <= j < k ==> t(rows[j]) == t(db.activations[j]);
    assert t(rows[k]);
  }

  lemma InsertedRow(p: Primitives, db: Db, input: ActivateRequest, adm: Admission, now: int, newId: string)
    requires adm.existing == First(db.activations, TripleOf(adm.appName, input))
    requires adm.existing.None?
    ensures var rows := ActivatedRows(p, db, input, adm, now, newId);
      var k := |db.activations|;
      && |rows| == k + 1 && rows[..k] == db.activations && First(rows, TripleOf(adm.appName, input)) == Some(k)
      && rows[k].status == Active && rows[k].id == newId
      && rows[k].activatedAt == Some(now) && rows[k].expiresAt == adm.license.expiresAt
  {
    var rows := ActivatedRows(p, db, input, adm, now, newId);
    var t := TripleOf(adm.appName, input);
    var k := |db.activations|;
    assert forall j :: 0 <= j < k ==> rows[j] == db.activations[j];
    assert t(rows[k]);
  }

  /** Every other activation is unchanged: the rows with another id after an update, the old rows after an insert. */
  lemma ActivatedOthers(p: Primitives, db: Db, input: ActivateRequest, adm: Admission, now: int, newId: string)
    requires adm.existing.Some? ==> adm.existing.value < |db.activations|
    ensures var rows := ActivatedRows(p, db, input, adm, now, newId);
      forall j :: 0 <= j < |db.activations| && (adm.existing.None? || db.activations[j].id != db.activations[adm.existing.value].id) ==>
        rows[j] == db.activations[j]
  {
  }

  /** `Activate` on an admitted request is `Admitted` on its admission. */
  lemma ActivateAdmitted(keys: Keys, db: Db, input: ActivateRequest, now: int, newId: string, logId: string, nonce: seq<byte>)
    requires FreshActivationId(db, newId) && FreshLogId(db, logId) && |nonce| == 16
    requires Activate(keys, db, input, now, newId, logId, nonce).result.Ok?
    ensures var adm := Admit(keys.p, db, input, now).value;
      Activate(keys, db, input, now, newId, logId, nonce) == Admitted(keys, db, input, adm, now, newId, logId, nonce)
  {
  }

  /** One log entry per activation, naming the granted id, `reactivated` exactly when the triple had a row. */
  lemma ActivateLogs(keys: Keys, db: Db, input: ActivateRequest, now: int, newId: string, logId: string, nonce: seq<byte>)
    requires FreshActivationId(db, newId) && FreshLogId(db, logId) && |nonce| == 16
    requires Activate(keys, db, input, now, newId, logId, nonce).result.Ok?
    ensures var r := Activate(keys, db, input, now, newId, logId, nonce);
      var adm := Admit(keys.p, db, input, now).value;
      && r.db.logs == db.logs + [ActivationLog(keys.p, logId, r.result.value.activationId, adm.existing.Some?, input.appVersion)]
      && (r.db.logs[|db.logs|].action == Reactivated <==> First(db.activations, TripleOf(adm.appName, input)).Some?)
  {
    ActivateAdmitted(keys, db, input, now, newId, logId, nonce);
  }

  /** The counts of an admitted activation: a machine new to the licence takes one more seat. */
  lemma AdmittedCounts(keys: Keys, db: Db, input: ActivateRequest, adm: Admission, now: int, newId: string, logId: string,
                       nonce: seq<byte>)
    requires adm.existing.Some? ==> adm.existing.value < |db.activations|
    requires |nonce| == 16
    requires adm.existing.None? ==> Count(db.activations, ActiveOfLicense(adm.appName, input.licenseKey)) < adm.license.maxActivations
    ensures var r := Admitted(keys, db, input, adm, now, newId, logId, nonce);
      var g := r.result.value;
      && g.appName == adm.appName && g.maxActivations == adm.license.maxActivations
      && g.usedActivations == Count(r.db.activations, ActiveOfLicense(adm.appName, input.licenseKey))
      && g.remainingActivations == Remaining(g.maxActivations, g.usedActivations)
      && (adm.existing.None? ==>
            g.usedActivations == Count(db.activations, ActiveOfLicense(adm.appName, input.licenseKey)) + 1
            && g.usedActivations <= g.maxActivations)
  {
    var rows := ActivatedRows(keys.p, db, input, adm, now, newId);
    if adm.existing.None? {
      var a := rows[|db.activations|];
      assert rows == db.activations + [a];
      CountAppend(db.activations, a, ActiveOfLicense(adm.appName, input.licenseKey));
    }
  }

  /**
   * The counts returned: `usedActivations` is the number of active rows of the licence after the
   * activation, `remainingActivations` the seats left; a machine new to the licence adds one seat.
   */
  lemma ActivateCounts(keys: Keys, db: Db, input: ActivateRequest, now: int, newId: string, logId: string, nonce: seq<byte>)
    requires FreshActivationId(db, newId) && FreshLogId(db, logId) && |nonce| == 16
    requires Activate(keys, db, input, now, newId, logId, nonce).result.Ok?
    ensures var r := Activate(keys, db, input, now, newId, logId, nonce);
      var g := r.result.value;
      && g.usedActivations == Count(r.db.activations, ActiveOfLicense(g.appName, input.licenseKey))
      && g.remainingActivations == Remaining(g.maxActivations, g.usedActivations)
      && (First(db.activations, TripleOf(g.appName, input)).None? ==>
            g.usedActivations == Count(db.activations, ActiveOfLicense(g.appName, input.licenseKey)) + 1
            && g.usedActivations <= g.maxActivations)
  {
    var adm := Admit(keys.p, db, input, now).value;
    ActivateAdmitted(keys, db, input, now, newId, logId, nonce);
    SeatRule(keys.p, db, input, now);
    AdmittedCounts(keys, db, input, adm, now, newId, logId, nonce);
  }

  /** The grant of an admitted activation: the admitted licence and app, the granted id, the token and its expiry. */
  lemma AdmittedGrant(keys: Keys, db: Db, input: ActivateRequest, adm: Admission, now: int, newId: string, logId: string,
                      nonce: seq<byte>)
    requires adm.existing.Some? ==> adm.existing.value < |db.activations|
    requires |nonce| == 16
    ensures var g := Admitted(keys, db, input, adm, now, newId, logId, nonce).result.value;
      && g.license == adm.license && g.appName == adm.appName && g.machineId == input.machineId
      && g.activationId == GrantedId(db, adm, newId) && g.activationType == TypeOfLock(adm.lock)
      && g.tokenExpiresAt == TokenExpiry(adm.license, now, keys.ttlDays)
      && g.activationToken == LicenseToken.Sign(keys.p, keys.secret, nonce,
           LicenseToken.SignRequest(adm.license.id, adm.appName, input.machineId, g.tokenExpiresAt), now)
  {
  }

  /** The token's expiry is the licence's expiry, or `now` plus the TTL when the licence has none. */
  lemma ActivateTokenExpiry(keys: Keys, db: Db, input: ActivateRequest, now: int, newId: string, logId: string, nonce: seq<byte>)
    requires FreshActivationId(db, newId) && FreshLogId(db, logId) && |nonce| == 16
    requires Activate(keys, db, input, now, newId, logId, nonce).result.Ok?
    ensures var g := Activate(keys, db, input, now, newId, logId, nonce).result.value;
      && g.tokenExpiresAt == TokenExpiry(g.license, now, keys.ttlDays)
      && g.activationToken == LicenseToken.Sign(keys.p, keys.secret, nonce,
           LicenseToken.SignRequest(g.license.id, g.appName, input.machineId, g.tokenExpiresAt), now)
  {
    var adm := Admit(keys.p, db, input, now).value;
    var r := Admitted(keys, db, input, adm, now, newId, logId, nonce);
    ActivateAdmitted(keys, db, input, now, newId, logId, nonce);
    AdmittedGrant(keys, db, input, adm, now, newId, logId, nonce);
  }

  // The tables of the seat-gap example: one seat, machine m1 active, machine m2 revoked.
  const GapLicense := License("l1", "app", "K", LicenseActive, 1, None, None)
  const GapActive := Activation("a1", "app", "1.0", "K", "m1", None, Active, None, Some(0), None)
  const GapRevoked := Activation("a2", "app", "1.0", "K", "m2", None, Revoked, None, Some(0), None)
  const GapDb := Db([], [GapLicense], [GapActive, GapRevoked], [])
  const GapRequest := ActivateRequest("app", "K", "m2", "1.0", None)

  /** The example's app name is already trimmed and names no app, so it is used as it is. */
  lemma GapName()
    ensures NormalizeAppName("app") == Ok("app") && ResolveAppName([], "app") == "app"
  {
    assert !IsWhitespace('a') && !IsWhitespace('p');
    TrimOfTrimmed("app");
    assert FindByIdentifier([], "app") == None;
  }

  /** The example's licence is the first row with its key. */
  lemma GapLicenseFound()
    ensures First(GapDb.licenses, LicenseOfKey("app", "K")) == Some(0)
  {
    assert LicenseOfKey("app", "K")(GapDb.licenses[0]);
  }

  /** Machine m2's revoked row is the first row of its triple. */
  lemma GapRowFound()
    ensures First(GapDb.activations, TripleOf("app", GapRequest)) == Some(1)
  {
    assert !TripleOf("app", GapRequest)(GapDb.activations[0]);
    assert TripleOf("app", GapRequest)(GapDb.activations[1]);
  }

  /** In the example, machine m2 is admitted through its revoked row. */
  lemma GapAdmitted(p: Primitives)
    ensures Admit(p, GapDb, GapRequest, 10) == Ok(Admission("app", GapLicense, None, Some(1)))
  {
    GapName();
    GapAdmitFor(p);
  }

  /** Once the name is resolved, the licence is found, passes its checks, and m2 has a seat. */
  lemma GapAdmitFor(p: Primitives)
    ensures AdmitFor(p, GapDb, "app", GapRequest, 10) == Ok(Admission("app", GapLicense, None, Some(1)))
  {
    GapLicenseFound();
    GapGatePasses(p);
    GapSeat();
  }

  /** The example's licence is active, unexpired and unlocked. */
  lemma GapGatePasses(p: Primitives)
    ensures LicenseGate(p, GapLicense, "m2", 10) == Ok(None)
  {
    assert LockedMachineId(p, None) == None;
  }

  /** Machine m2 has a seat through its row. */
  lemma GapSeat()
    ensures SeatGate(GapDb, "app", GapRequest, GapLicense, None) == Ok(Admission("app", GapLicense, None, Some(1)))
  {
    GapRowFound();
  }

  /** With unique ids, the update of the row with a given id replaces that one row. */
  lemma UpdateById(rows: seq<Activation>, k: nat, f: Activation -> Activation)
    requires Unique(rows, ActivationId) && k < |rows|
    ensures UpdateWhere(rows, ActivationWithId(rows[k].id), f) == rows[k := f(rows[k])]
  {
    var r := UpdateWhere(rows, ActivationWithId(rows[k].id), f);
    forall j | 0 <= j < |rows| ensures r[j] == rows[k := f(rows[k])][j] {
      if j != k {
        assert ActivationId(rows[j]) != ActivationId(rows[k]);
      }
    }
  }

  /**
   * The gap in the seat rule: reactivating a triple whose row is not active takes one more seat
   * than were in use, whatever the licence's limit; the seat check let it through because the
   * row exists.
   */
  lemma ReactivationIgnoresLimit(keys: Keys, db: Db, input: ActivateRequest, now: int, newId: string, logId: string,
                                 nonce: seq<byte>)
    requires Valid(db) && FreshActivationId(db, newId) && FreshLogId(db, logId) && |nonce| == 16
    requires Admit(keys.p, db, input, now).Ok?
    requires var adm := Admit(keys.p, db, input, now).value;
      adm.existing.Some? && db.activations[adm.existing.value].status != Active
    ensures var r := Activate(keys, db, input, now, newId, logId, nonce);
      var adm := Admit(keys.p, db, input, now).value;
      && r.result.Ok? && r.result.value.maxActivations == adm.license.maxActivations
      && r.result.value.usedActivations == Count(db.activations, ActiveOfLicense(adm.appName, input.licenseKey)) + 1
  {
    var adm := Admit(keys.p, db, input, now).value;
    var k := adm.existing.value;
    ActivateAdmitted(keys, db, input, now, newId, logId, nonce);
    AdmittedCounts(keys, db, input, adm, now, newId, logId, nonce);
    var f := Reactivate(input.appVersion, ShopName(input.metadata), MetadataText(keys.p, input.metadata), now, adm.license.expiresAt);
    UpdateById(db.activations, k, f);
    assert ActivatedRows(keys.p, db, input, adm, now, newId) == db.activations[k := f(db.activations[k])];
    CountSet(db.activations, k, f(db.activations[k]), ActiveOfLicense(adm.appName, input.licenseKey));
  }

  /**
   * The gap on an example: with one seat, machine m1 active and machine m2 revoked,
   * reactivating m2 succeeds and leaves two seats in use.
   */
  lemma ReactivationExceedsLimit(keys: Keys, nonce: seq<byte>)
    requires |nonce| == 16
    ensures var r := Activate(keys, GapDb, GapRequest, 10, "a3", "g1", nonce);
      r.result.Ok? && r.result.value.usedActivations == 2 && r.result.value.maxActivations == 1
  {
    GapPremises();
    GapAdmitted(keys.p);
    ReactivationIgnoresLimit(keys, GapDb, GapRequest, 10, "a3", "g1", nonce);
    GapCount();
  }

  /** The example meets the premises of the gap: valid tables, fresh ids, m2 admitted through its revoked row. */
  lemma GapPremises()
    ensures Valid(GapDb) && FreshActivationId(GapDb, "a3") && FreshLogId(GapDb, "g1")
    ensures GapDb.activations[1].status != Active
  {
    GapValid();
    GapFresh();
  }

  lemma GapFresh()
    ensures FreshActivationId(GapDb, "a3") && FreshLogId(GapDb, "g1")
  {
    assert "a3"[1] != "a1"[1] && "a3"[1] != "a2"[1];
  }

  /** One seat of the example licence is in use before the reactivation. */
  lemma GapCount()
    ensures Count(GapDb.activations, ActiveOfLicense("app", "K")) == 1
  {
    var active := ActiveOfLicense("app", "K");
    CountAppend([], GapActive, active);
    CountAppend([GapActive], GapRevoked, active);
    assert [GapActive] + [GapRevoked] == GapDb.activations;
  }

  /** The example's tables are valid: the gap needs no broken index. */
  lemma GapValid()
    ensures Valid(GapDb)
  {
    assert GapActive.id != GapRevoked.id && ActivationTriple(GapActive) != ActivationTriple(GapRevoked);
  }

  /** The activation table after an admission keeps its keys and ids: the update keeps every key, the insert uses a fresh id and a free triple. */
  lemma ActivatedRowsValid(p: Primitives, db: Db, input: ActivateRequest, adm: Admission, now: int, newId: string)
    requires Valid(db)
    requires adm.existing == First(db.activations, TripleOf(adm.appName, input))
    requires adm.existing.Some? ==> adm.existing.value < |db.activations|
    requires FreshActivationId(db, newId)
    ensures var rows := ActivatedRows(p, db, input, adm, now, newId);
      ActivationsIndexed(rows) && ActivationIdsPresent(rows)
  {
    var rows := ActivatedRows(p, db, input, adm, now, newId);
    if adm.existing.Some? {
      var f := Reactivate(input.appVersion, ShopName(input.metadata), MetadataText(p, input.metadata), now, adm.license.expiresAt);
      var w := ActivationWithId(db.activations[adm.existing.value].id);
      UniqueUpdate(db.activations, w, f, ActivationId);
      UniqueUpdate(db.activations, w, f, ActivationTriple);
    } else {
      var a := rows[|db.activations|];
      assert rows == db.activations + [a];
      assert !ActivationCollides(db.activations, a);
      ActivationInsert(db.activations, a);
    }
    assert ActivationIdsPresent(rows);
  }

  /** Activating keeps the tables valid: the new activation table keeps its keys, the log gets a fresh id. */
  lemma AdmittedKeepsValid(keys: Keys, db: Db, input: ActivateRequest, adm: Admission, now: int, newId: string, logId: string,
                           nonce: seq<byte>)
    requires Valid(db)
    requires adm.existing == First(db.activations, TripleOf(adm.appName, input))
    requires adm.existing.Some? ==> adm.existing.value < |db.activations|
    requires FreshActivationId(db, newId) && FreshLogId(db, logId) && |nonce| == 16
    ensures Valid(Admitted(keys, db, input, adm, now, newId, logId, nonce).db)
  {
    var rows := ActivatedRows(keys.p, db, input, adm, now, newId);
    var log := ActivationLog(keys.p, logId, GrantedId(db, adm, newId), adm.existing.Some?, input.appVersion);
    assert Admitted(keys, db, input, adm, now, newId, logId, nonce).db == db.(activations := rows, logs := db.logs + [log]);
    ActivatedRowsValid(keys.p, db, input, adm, now, newId);
    UniqueAppend(db.logs, log, LogId);
  }

  lemma ActivateKeepsValid(keys: Keys, db: Db, input: ActivateRequest, now: int, newId: string, logId: string, nonce: seq<byte>)
    requires Valid(db)
    requires FreshActivationId(db, newId) && FreshLogId(db, logId) && |nonce| == 16
    ensures Valid(Activate(keys, db, input, now, newId, logId, nonce).db)
  {
    if Admit(keys.p, db, input, now).Ok? {
      ActivateAdmitted(keys, db, input, now, newId, logId, nonce);
      AdmittedKeepsValid(keys, db, input, Admit(keys.p, db, input, now).value, now, newId, logId, nonce);
    }
  }

  // ---- validateActivation and deactivateActivation ----

  /** What `validateActivation` and `deactivateActivation` are given. */
  datatype CheckRequest = CheckRequest(appName: string, machineId: string, activationToken: string)

  /** A passed token check: the resolved app name and the token's payload. */
  datatype TokenMatch = TokenMatch(appName: string, payload: Json)

  /**
   * The checks both share, in order: a blank app name, a token that does not verify at `now`,
   * and a token for another app or machine.
   */
  function CheckToken(keys: Keys, apps: seq<App>, input: CheckRequest, now: int): (r: Result<TokenMatch, Failure>)
    ensures r.Ok? ==> StringField(r.value.payload, "appName") == Some(r.value.appName)
    ensures r.Ok? ==> StringField(r.value.payload, "machineId") == Some(input.machineId)
  {
    match NormalizeAppName(input.appName)
    case Err(e) => Err(e)
    case Ok(requested) =>
      var appName := ResolveAppName(apps, requested);
      match LicenseToken.Verify(keys.p, keys.secret, input.activationToken, now)
      case None => Err(Refused(InvalidTokenMessage))
      case Some(payload) =>
        if StringField(payload, "appName") != Some(appName) || StringField(payload, "machineId") != Some(input.machineId) then
          Err(Refused(MismatchMessage))
        else Ok(TokenMatch(appName, payload))
  }

  /** The token checks, in order. */
  lemma CheckTokenOrder(keys: Keys, apps: seq<App>, input: CheckRequest, now: int)
    ensures var r := CheckToken(keys, apps, input, now);
      var appName := ResolveAppName(apps, Trim(input.appName));
      var payload := LicenseToken.Verify(keys.p, keys.secret, input.activationToken, now);
      && (Trim(input.appName) == "" <==> r == Err(AppNameRequired))
      && (Trim(input.appName) != "" && payload.None? ==> r == Err(Refused(InvalidTokenMessage)))
      && (Trim(input.appName) != "" && payload.Some? ==>
            (r == Err(Refused(MismatchMessage)) <==>
              StringField(payload.value, "appName") != Some(appName) || StringField(payload.value, "machineId") != Some(input.machineId)))
  {
  }

  /** `licenses.id = payload.licenseId`: a payload without a string `licenseId` names no licence. */
  function TokenLicense(licenses: seq<License>, payload: Json): (r: Option<nat>)
    ensures r.Some? ==> r.value < |licenses| && Some(licenses[r.value].id) == StringField(payload, "licenseId")
    ensures r.None? ==> forall i :: 0 <= i < |licenses| ==> Some(licenses[i].id) != StringField(payload, "licenseId")
  {
    match StringField(payload, "licenseId")
    case None => None
    case Some(id) => First(licenses, LicenseWithId(id))
  }

  /** What a valid activation reports. */
  datatype Report = Report(license: License, activation: Activation, activationType: ActivationType,
                           maxActivations: int, usedActivations: nat, remainingActivations: int)

  /** The checks of `validateActivation` on the token's licence: not active, expired, then the triple's row missing or not active. */
  function ValidateLicense(p: Primitives, activations: seq<Activation>, appName: string, machineId: string, license: License,
                           now: int): (r: Result<Report, Failure>)
    ensures var row := First(activations, ActivationOfMachine(appName, license.licenseKey, machineId));
      r.Ok? <==> license.status == LicenseActive && !Expired(license, now) && row.Some? && activations[row.value].status == Active
    ensures r.Ok? ==> r.value.license == license && r.value.activation.status == Active
    ensures var row := First(activations, ActivationOfMachine(appName, license.licenseKey, machineId));
      r.Ok? ==> row.Some? && r.value.activation == activations[row.value]
    ensures r.Ok? ==> r.value.maxActivations == license.maxActivations
    ensures r.Ok? ==> r.value.activationType == TypeOfLock(LockedMachineId(p, license.metadata))
    ensures r.Ok? ==> r.value.usedActivations == Count(activations, ActiveOfLicense(appName, license.licenseKey))
    ensures r.Ok? ==> r.value.remainingActivations == Remaining(license.maxActivations, r.value.usedActivations)
    ensures r.Err? && license.status != LicenseActive ==> r.error == Refused(LicenseNotActiveMessage)
    ensures r.Err? && license.status == LicenseActive && Expired(license, now) ==> r.error == Refused(LicenseExpiredMessage)
    ensures r.Err? && license.status == LicenseActive && !Expired(license, now) ==> r.error == Refused(ActivationNotActiveMessage)
  {
    if license.status != LicenseActive then Err(Refused(LicenseNotActiveMessage))
    else
      var lock := LockedMachineId(p, license.metadata);
      if Expired(license, now) then Err(Refused(LicenseExpiredMessage))
      else
        match First(activations, ActivationOfMachine(appName, license.licenseKey, machineId))
        case None => Err(Refused(ActivationNotActiveMessage))
        case Some(k) =>
          var activation := activations[k];
          if activation.status != Active then Err(Refused(ActivationNotActiveMessage))
          else
            var used := Count(activations, ActiveOfLicense(appName, license.licenseKey));
            Ok(Report(license, activation, TypeOfLock(lock), license.maxActivations, used,
                      Remaining(license.maxActivations, used)))
  }

  /**
   * `validateActivation`: the token checks, then a licence that is missing or not active, a
   * licence that has expired, and a triple whose row is missing or not active. It writes nothing.
   */
  function Validate(keys: Keys, db: Db, input: CheckRequest, now: int): (r: Result<Report, Failure>)
    ensures r.Ok? ==> r.value.license in db.licenses && r.value.license.status == LicenseActive && !Expired(r.value.license, now)
    ensures r.Ok? ==> r.value.activation in db.activations && r.value.activation.status == Active
    ensures var c := CheckToken(keys, db.apps, input, now);
      r.Ok? ==> (c.Ok? && TokenLicense(db.licenses, c.value.payload).Some?
        && r.value.license == db.licenses[TokenLicense(db.licenses, c.value.payload).value])
    ensures var c := CheckToken(keys, db.apps, input, now);
      r.Ok? && c.Ok? ==>
        var row := First(db.activations, ActivationOfMachine(c.value.appName, r.value.license.licenseKey, input.machineId));
        row.Some? && r.value.activation == db.activations[row.value]
    ensures var c := CheckToken(keys, db.apps, input, now);
      r.Ok? && c.Ok? ==>
        && r.value.maxActivations == r.value.license.maxActivations
        && r.value.usedActivations == Count(db.activations, ActiveOfLicense(c.value.appName, r.value.license.licenseKey))
        && r.value.remainingActivations == Remaining(r.value.license.maxActivations, r.value.usedActivations)
  {
    ValidateChecked(keys.p, db, CheckToken(keys, db.apps, input, now), input.machineId, now)
  }

  /** `validateActivation` once the token checks gave `c`. */
  function ValidateChecked(p: Primitives, db: Db, c: Result<TokenMatch, Failure>, machineId: string, now: int)
    : (r: Result<Report, Failure>)
    ensures r.Ok? ==> r.value.license in db.licenses && r.value.license.status == LicenseActive && !Expired(r.value.license, now)
    ensures r.Ok? ==> r.value.activation in db.activations && r.value.activation.status == Active
    ensures r.Ok? ==> (c.Ok? && TokenLicense(db.licenses, c.value.payload).Some?
      && r.value.license == db.licenses[TokenLicense(db.licenses, c.value.payload).value])
    ensures r.Ok? && c.Ok? ==>
      var row := First(db.activations, ActivationOfMachine(c.value.appName, r.value.license.licenseKey, machineId));
      row.Some? && r.value.activation == db.activations[row.value]
    ensures r.Ok? && c.Ok? ==>
      && r.value.maxActivations == r.value.license.maxActivations
      && r.value.usedActivations == Count(db.activations, ActiveOfLicense(c.value.appName, r.value.license.licenseKey))
      && r.value.remainingActivations == Remaining(r.value.license.maxActivations, r.value.usedActivations)
  {
    match c
    case Err(e) => Err(e)
    case Ok(m) =>
      match TokenLicense(db.licenses, m.payload)
      case None => Err(Refused(LicenseNotActiveMessage))
      case Some(i) => ValidateLicense(p, db.activations, m.appName, machineId, db.licenses[i], now)
  }

  /** The failure order of `validateActivation` after the token checks. */
  lemma ValidateOrder(keys: Keys, db: Db, input: CheckRequest, now: int)
    ensures var r := Validate(keys, db, input, now);
      var c := CheckToken(keys, db.apps, input, now);
      && (c.Err? ==> r == Err(c.error))
      && (c.Ok? ==>
            var found := TokenLicense(db.licenses, c.value.payload);
            && (found.None? || db.licenses[found.value].status != LicenseActive ==> r == Err(Refused(LicenseNotActiveMessage)))
            && (found.Some? && db.licenses[found.value].status == LicenseActive ==>
                  var license := db.licenses[found.value];
                  var row := First(db.activations, ActivationOfMachine(c.value.appName, license.licenseKey, input.machineId));
                  && (Expired(license, now) ==> r == Err(Refused(LicenseExpiredMessage)))
                  && (!Expired(license, now) ==>
                        (r.Ok? <==> row.Some? && db.activations[row.value].status == Active)
                        && (r.Err? ==> r == Err(Refused(ActivationNotActiveMessage))))))
  {
  }

  /** What a deactivation reports. */
  datatype Usage = Usage(activationType: ActivationType, maxActivations: int, usedActivations: nat, remainingActivations: int)

  function SetRevoked(): Activation -> Activation {
    (a: Activation) => a.(status := Revoked)
  }

  /** The `UPDATE` of `deactivateActivation`: every row of the triple revoked, then the licence's usage. */
  function RevokeTriple(p: Primitives, db: Db, appName: string, machineId: string, license: License): (r: Outcome<Usage>)
    ensures r.result.Ok? && r.db.apps == db.apps && r.db.licenses == db.licenses && r.db.logs == db.logs
    ensures r.db.activations == UpdateWhere(db.activations, ActivationOfMachine(appName, license.licenseKey, machineId), SetRevoked())
    ensures r.result.value.usedActivations == Count(r.db.activations, ActiveOfLicense(appName, license.licenseKey))
  {
    var lock := LockedMachineId(p, license.metadata);
    var activations := UpdateWhere(db.activations, ActivationOfMachine(appName, license.licenseKey, machineId), SetRevoked());
    var used := Count(activations, ActiveOfLicense(appName, license.licenseKey));
    Outcome(Ok(Usage(TypeOfLock(lock), license.maxActivations, used, Remaining(license.maxActivations, used))),
            db.(activations := activations))
  }

  /**
   * `deactivateActivation`: the token checks, then a missing licence; otherwise every row of the
   * triple is revoked (there may be none), no log is written, and the licence's usage is reported.
   * The licence's own status and expiry are not checked.
   */
  function Deactivate(keys: Keys, db: Db, input: CheckRequest, now: int): (r: Outcome<Usage>)
    ensures r.result.Err? ==> r.db == db
    ensures r.db.apps == db.apps && r.db.licenses == db.licenses && r.db.logs == db.logs
    ensures |r.db.activations| == |db.activations|
    ensures var c := CheckToken(keys, db.apps, input, now);
      r.result.Err? <==> c.Err? || TokenLicense(db.licenses, c.value.payload).None?
    ensures var c := CheckToken(keys, db.apps, input, now);
      c.Ok? && TokenLicense(db.licenses, c.value.payload).None? ==> r.result == Err(Refused(LicenseNotFoundMessage))
  {
    DeactivateChecked(keys.p, db, CheckToken(keys, db.apps, input, now), input.machineId)
  }

  /** `deactivateActivation` once the token checks gave `c`. */
  function DeactivateChecked(p: Primitives, db: Db, c: Result<TokenMatch, Failure>, machineId: string): (r: Outcome<Usage>)
    ensures r.result.Err? ==> r.db == db
    ensures r.db.apps == db.apps && r.db.licenses == db.licenses && r.db.logs == db.logs
    ensures |r.db.activations| == |db.activations|
    ensures r.result.Err? <==> c.Err? || TokenLicense(db.licenses, c.value.payload).None?
    ensures c.Ok? && TokenLicense(db.licenses, c.value.payload).None? ==> r.result == Err(Refused(LicenseNotFoundMessage))
    ensures r.result.Ok? ==>
      r == RevokeTriple(p, db, c.value.appName, machineId, db.licenses[TokenLicense(db.licenses, c.value.payload).value])
  {
    match c
    case Err(e) => Outcome(Err(e), db)
    case Ok(m) =>
      match TokenLicense(db.licenses, m.payload)
      case None => Outcome(Err(Refused(LicenseNotFoundMessage)), db)
      case Some(i) => RevokeTriple(p, db, m.appName, machineId, db.licenses[i])
  }

  /** A deactivation revokes every row of the triple and leaves every other row as it was. */
  lemma DeactivateRevokes(keys: Keys, db: Db, input: CheckRequest, now: int)
    requires Deactivate(keys, db, input, now).result.Ok?
    ensures var r := Deactivate(keys, db, input, now);
      var m := CheckToken(keys, db.apps, input, now).value;
      var license := db.licenses[TokenLicense(db.licenses, m.payload).value];
      var t := ActivationOfMachine(m.appName, license.licenseKey, input.machineId);
      && (forall j :: 0 <= j < |db.activations| && t(db.activations[j]) ==> r.db.activations[j] == db.activations[j].(status := Revoked))
      && (forall j :: 0 <= j < |db.activations| && !t(db.activations[j]) ==> r.db.activations[j] == db.activations[j])
  {
    DeactivateCheckedRevokes(keys.p, db, CheckToken(keys, db.apps, input, now), input.machineId);
  }

  /** Revoking a triple rewrites exactly the triple's rows. */
  lemma DeactivateCheckedRevokes(p: Primitives, db: Db, c: Result<TokenMatch, Failure>, machineId: string)
    requires DeactivateChecked(p, db, c, machineId).result.Ok?
    ensures var r := DeactivateChecked(p, db, c, machineId);
      var license := db.licenses[TokenLicense(db.licenses, c.value.payload).value];
      var t := ActivationOfMachine(c.value.appName, license.licenseKey, machineId);
      && (forall j :: 0 <= j < |db.activations| && t(db.activations[j]) ==> r.db.activations[j] == db.activations[j].(status := Revoked))
      && (forall j :: 0 <= j < |db.activations| && !t(db.activations[j]) ==> r.db.activations[j] == db.activations[j])
  {
    var license := db.licenses[TokenLicense(db.licenses, c.value.payload).value];
    var t := ActivationOfMachine(c.value.appName, license.licenseKey, machineId);
    var after := DeactivateChecked(p, db, c, machineId).db;
    assert after.activations == UpdateWhere(db.activations, t, SetRevoked());
  }

  lemma DeactivateKeepsValid(keys: Keys, db: Db, input: CheckRequest, now: int)
    requires Valid(db)
    ensures Valid(Deactivate(keys, db, input, now).db)
  {
    var c := CheckToken(keys, db.apps, input, now);
    DeactivateCheckedKeepsValid(keys.p, db, c, input.machineId);
  }

  /** Revoking the rows of a triple keeps the tables valid. */
  lemma DeactivateCheckedKeepsValid(p: Primitives, db: Db, c: Result<TokenMatch, Failure>, machineId: string)
    requires Valid(db)
    ensures Valid(DeactivateChecked(p, db, c, machineId).db)
  {
    var r := DeactivateChecked(p, db, c, machineId);
    if r.result.Ok? {
      var license := db.licenses[TokenLicense(db.licenses, c.value.payload).value];
      var t := ActivationOfMachine(c.value.appName, license.licenseKey, machineId);
      UniqueUpdate(db.activations, t, SetRevoked(), ActivationId);
      UniqueUpdate(db.activations, t, SetRevoked(), ActivationTriple);
      assert r.db.activations == UpdateWhere(db.activations, t, SetRevoked());
    }
  }

  /**
   * Deactivate, then validate the same token: while the licence stays active and unexpired the
   * validation now fails with "Activation not active".
   */
  lemma DeactivateThenValidate(keys: Keys, db: Db, input: CheckRequest, now: int)
    requires Deactivate(keys, db, input, now).result.Ok?
    requires var m := CheckToken(keys, db.apps, input, now).value;
      var license := db.licenses[TokenLicense(db.licenses, m.payload).value];
      license.status == LicenseActive && !Expired(license, now)
    ensures Validate(keys, Deactivate(keys, db, input, now).db, input, now) == Err(Refused(ActivationNotActiveMessage))
  {
    var c := CheckToken(keys, db.apps, input, now);
    var after := DeactivateChecked(keys.p, db, c, input.machineId).db;
    assert after.apps == db.apps;
    RevokedThenChecked(keys.p, db, c, input.machineId, now);
  }

  /** Once a triple's rows are revoked, the same token check finds no active row. */
  lemma RevokedThenChecked(p: Primitives, db: Db, c: Result<TokenMatch, Failure>, machineId: string, now: int)
    requires DeactivateChecked(p, db, c, machineId).result.Ok?
    requires var license := db.licenses[TokenLicense(db.licenses, c.value.payload).value];
      license.status == LicenseActive && !Expired(license, now)
    ensures ValidateChecked(p, DeactivateChecked(p, db, c, machineId).db, c, machineId, now) == Err(Refused(ActivationNotActiveMessage))
  {
    var after := DeactivateChecked(p, db, c, machineId).db;
    var m := c.value;
    var i := TokenLicense(db.licenses, m.payload).value;
    var license := db.licenses[i];
    var t := ActivationOfMachine(m.appName, license.licenseKey, machineId);
    assert after.activations == UpdateWhere(db.activations, t, SetRevoked());
    var v := ValidateLicense(p, after.activations, m.appName, machineId, license, now);
    assert ValidateChecked(p, after, c, machineId, now) == v;
    match First(after.activations, t)
    case None =>
    case Some(k) =>
      assert after.activations[k].status == Revoked;
  }

  /**
   * Activate, then validate: the granted token validates against the tables after the
   * activation while it is unexpired and the licence has not expired.
   */
  lemma ActivateThenValidate(keys: Keys, db: Db, input: ActivateRequest, now: int, newId: string, logId: string,
                             nonce: seq<byte>, later: int)
    requires Lawful(keys.p) && Valid(db)
    requires FreshActivationId(db, newId) && FreshLogId(db, logId) && |nonce| == 16
    requires Activate(keys, db, input, now, newId, logId, nonce).result.Ok?
    requires var g := Activate(keys, db, input, now, newId, logId, nonce).result.value;
      && now / 1000 != 0 && g.tokenExpiresAt / 1000 != 0
      && now / 1000 <= later / 1000 + Jws.ClockSkewSeconds && later / 1000 <= g.tokenExpiresAt / 1000
      && !Expired(g.license, later)
    ensures var r := Activate(keys, db, input, now, newId, logId, nonce);
      var check := CheckRequest(input.appName, input.machineId, r.result.value.activationToken);
      Validate(keys, r.db, check, later).Ok?
  {
    var adm := Admit(keys.p, db, input, now).value;
    ActivateAdmitted(keys, db, input, now, newId, logId, nonce);
    AdmittedLicense(keys.p, db, input, now);
    var r := Admitted(keys, db, input, adm, now, newId, logId, nonce);
    var g := r.result.value;
    var req := LicenseToken.SignRequest(adm.license.id, adm.appName, input.machineId, g.tokenExpiresAt);
    assert g.activationToken == LicenseToken.Sign(keys.p, keys.secret, nonce, req, now);
    LicenseToken.SignThenVerify(keys.p, keys.secret, nonce, req, now, later);
    var payload := LicenseToken.Payload(Hex(nonce), req, now);
    var check := CheckRequest(input.appName, input.machineId, g.activationToken);
    assert CheckToken(keys, r.db.apps, check, later) == Ok(TokenMatch(adm.appName, payload));
    ValidateAfterActivate(keys, db, input, adm, now, newId, logId, nonce, payload, later);
  }

  /** A token naming a licence's id finds that licence, given unique licence ids. */
  lemma TokenFindsLicense(licenses: seq<License>, payload: Json, license: License)
    requires Unique(licenses, LicenseId) && license in licenses
    requires StringField(payload, "licenseId") == Some(license.id)
    ensures TokenLicense(licenses, payload).Some? && licenses[TokenLicense(licenses, payload).value] == license
  {
    var li :| 0 <= li < |licenses| && licenses[li] == license;
    var found := TokenLicense(licenses, payload).value;
    UniqueOne(licenses, LicenseId);
    assert LicenseId(licenses[found]) == LicenseId(licenses[li]);
  }

  /** The licence and row checks of `validateActivation` pass on the tables an admitted activation leaves. */
  lemma ValidateAfterActivate(keys: Keys, db: Db, input: ActivateRequest, adm: Admission, now: int, newId: string, logId: string,
                              nonce: seq<byte>, payload: Json, later: int)
    requires Valid(db) && |nonce| == 16
    requires adm.existing == First(db.activations, TripleOf(adm.appName, input))
    requires adm.existing.Some? ==> adm.existing.value < |db.activations|
    requires adm.license in db.licenses && adm.license.licenseKey == input.licenseKey
    requires adm.license.status == LicenseActive && !Expired(adm.license, later)
    requires StringField(payload, "licenseId") == Some(adm.license.id)
    ensures var r := Admitted(keys, db, input, adm, now, newId, logId, nonce);
      ValidateLicense(keys.p, r.db.activations, adm.appName, input.machineId, adm.license, later).Ok?
      && TokenLicense(r.db.licenses, payload).Some? && r.db.licenses[TokenLicense(r.db.licenses, payload).value] == adm.license
  {
    var r := Admitted(keys, db, input, adm, now, newId, logId, nonce);
    assert r.db.activations == ActivatedRows(keys.p, db, input, adm, now, newId) && r.db.licenses == db.licenses;
    ActivatedRow(keys.p, db, input, adm, now, newId);
    TokenFindsLicense(db.licenses, payload, adm.license);
  }
}
