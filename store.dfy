/**
 * The database the services write, held in memory: one object with the four tables, whose
 * methods issue the statements of `services/apps.ts`, `services/licensing.ts` and
 * `routes/activations.ts` one after the other. Each method is proved to leave exactly the
 * tables, and return exactly the result, of the step function that specifies it, and to keep
 * the unique indexes and the seat counts valid; the properties of the steps are lemmas in the
 * modules that define them.
 */
module LicenseStore {
  import opened Wrappers
  import opened Text
  import opened Encoding
  import opened Tables
  import opened Schema
  import opened AppNames
  import opened LicenseKeys
  import LicenseToken
  import AppService
  import Licensing
  import ActivationService
  import ActivationRoutes

  class Store {
    var apps: seq<App>
    var licenses: seq<License>
    var activations: seq<Activation>
    var logs: seq<Log>

    /** The four tables as a value. */
    function Contents(): Db
      reads this
    {
      Db(apps, licenses, activations, logs)
    }

    /** The unique indexes hold, every licence has a seat, and every activation has an id. */
    predicate Valid()
      reads this
    {
      Schema.Valid(Contents())
    }

    /** An empty database. */
    constructor ()
      ensures Contents() == Db([], [], [], [])
      ensures Valid()
    {
      apps := [];
      licenses := [];
      activations := [];
      logs := [];
    }

    // ---- services/apps.ts ----

    /** `createApp(name)`, with `id` the new app's UUID. */
    method CreateApp(name: string, id: string) returns (r: Result<App, Failure>)
      requires Valid() && FreshAppId(Contents(), id)
      modifies this
      ensures Outcome(r, Contents()) == AppService.CreateApp(old(Contents()), name, id)
      ensures Valid()
    {
      var db := Contents();
      var normalized := Trim(name);
      if normalized == "" {
        return Err(Refused(AppService.AppNameRequiredMessage));
      }
      var existing := FindByName(apps, normalized);
      if existing.Some? {
        assert AppService.CreateApp(db, name, id) == Outcome(Ok(existing.value), db);
        return Ok(existing.value);
      }
      var app := App(id, normalized, AppService.NewAppSlug(normalized, id), AppActive, None);
      if AppCollides(apps, app) {
        assert AppService.CreateApp(db, name, id) == Outcome(Err(DbConflict), db);
        return Err(DbConflict);
      }
      AppService.CreateAppInserts(db, name, id, app);
      apps := apps + [app];
      r := Ok(app);
    }

    /** `getOrCreateAppByName(name)`. */
    method GetOrCreateApp(name: string, id: string) returns (r: Result<Option<App>, Failure>)
      requires Valid() && FreshAppId(Contents(), id)
      modifies this
      ensures Outcome(r, Contents()) == AppService.GetOrCreateApp(old(Contents()), name, id)
      ensures Valid()
    {
      var normalized := Trim(name);
      if normalized == "" {
        return Ok(None);
      }
      var existing := FindByName(apps, normalized);
      if existing.Some? {
        return Ok(existing);
      }
      TrimIdempotent(name);
      var created := CreateApp(normalized, id);
      match created
      case Ok(app) => r := Ok(Some(app));
      case Err(DbConflict) => r := Err(DbConflict);
      case Err(_) => r := Ok(None);
    }

    /**
     * `updateAppById(id, {name, status})`: the checks, then the transaction's three updates,
     * undone together when an index breaks.
     */
    method UpdateApp(id: string, name: Option<string>, status: Option<AppStatus>) returns (r: Result<App, Failure>)
      requires Valid()
      modifies this
      ensures Outcome(r, Contents()) == AppService.UpdateApp(old(Contents()), id, name, status)
      ensures Valid()
    {
      AppService.UpdateAppKeepsValid(Contents(), id, name, status);
      var found := First(apps, AppWithId(id));
      if found.None? {
        return Err(Refused(AppService.AppNotFoundMessage));
      }
      var i := found.value;
      var existing := apps[i];
      var nextName := AppService.NextName(existing, name);
      var nextStatus := if status.Some? then status.value else existing.status;
      if nextName != existing.name && AppService.NameHeldByOther(apps, nextName, id) {
        return Err(Refused(AppService.AppNameTakenMessage));
      }
      var committed := RenameTransaction(existing, id, nextName, nextStatus);
      if !committed {
        return Err(DbConflict);
      }
      r := Ok(apps[i]);
    }

    /**
     * The transaction of `updateAppById`: the app row, then, when the name changes, every
     * licence and activation under the old name; undone as a whole when an index breaks.
     */
    method RenameTransaction(existing: App, id: string, nextName: string, nextStatus: AppStatus) returns (committed: bool)
      modifies this
      ensures var after := AppService.Renamed(old(Contents()), existing, id, nextName, nextStatus);
        && committed == Indexed(after)
        && Contents() == if committed then after else old(Contents())
    {
      var slug := Slugify(nextName);
      var nextSlug := if slug != "" then slug else existing.slug;
      var before := Contents();
      apps := UpdateWhere(apps, AppWithId(id), AppService.RenameApp(nextName, nextSlug, nextStatus));
      if nextName != existing.name {
        licenses := UpdateWhere(licenses, LicenseOfApp(existing.name), AppService.SetLicenseApp(nextName));
        activations := UpdateWhere(activations, ActivationOfApp(existing.name), AppService.SetActivationApp(nextName));
      }
      assert Contents() == AppService.Renamed(before, existing, id, nextName, nextStatus);
      committed := Indexed(Contents());
      if !committed {
        apps, licenses, activations := before.apps, before.licenses, before.activations;
      }
    }

    /** `deleteAppById(id)`: the logs of the app's activations, its activations, its licences, the app. */
    method DeleteApp(id: string) returns (r: Result<(), Failure>)
      requires Valid()
      modifies this
      ensures Outcome(r, Contents()) == AppService.DeleteApp(old(Contents()), id)
      ensures Valid()
    {
      AppService.DeleteAppKeepsValid(Contents(), id);
      var found := First(apps, AppWithId(id));
      if found.None? {
        return Err(Refused(AppService.AppNotFoundMessage));
      }
      var name := apps[found.value].name;
      var ids := ActivationIdsWhere(activations, ActivationOfApp(name));
      if |ids| > 0 {
        logs := DeleteWhere(logs, LogOfAny(ids));
      } else {
        DeleteNothing(logs, LogOfAny(ids));
      }
      activations := DeleteWhere(activations, ActivationOfApp(name));
      licenses := DeleteWhere(licenses, LicenseOfApp(name));
      apps := DeleteWhere(apps, AppWithId(id));
      r := Ok(());
    }

    // ---- services/licensing.ts: licences ----

    /** The app of `issueLicense`: the one the identifier matches, else the one `getOrCreateAppByName` gives. */
    method EnsureApp(appName: string, appId: string) returns (r: Result<string, Failure>)
      requires Valid() && FreshAppId(Contents(), appId)
      modifies this
      ensures Outcome(r, Contents()) == Licensing.EnsureApp(old(Contents()), appName, appId)
      ensures Valid()
    {
      Licensing.EnsureAppKeepsValid(Contents(), appName, appId);
      var requested := Licensing.NormalizeAppName(appName);
      if requested.Err? {
        return Err(requested.error);
      }
      var matched := FindByIdentifier(apps, requested.value);
      if matched.Some? {
        return Ok(matched.value.name);
      }
      var ensured := GetOrCreateApp(requested.value, appId);
      if ensured.Err? {
        return Err(ensured.error);
      }
      if ensured.value.None? {
        return Err(AppNotFound);
      }
      r := Ok(ensured.value.value.name);
    }

    /** `issueLicense(input)`: the app found or created, then a fresh key, then the insert. */
    method Issue(p: Primitives, input: Licensing.IssueRequest, appId: string, licenseId: string,
                 attempts: seq<seq<int>>, suffix: seq<byte>) returns (r: Result<License, Failure>)
      requires Valid() && FreshAppId(Contents(), appId) && KeyDraws(attempts)
      modifies this
      ensures Outcome(r, Contents()) == Licensing.Issue(p, old(Contents()), input, appId, licenseId, attempts, suffix)
      ensures Valid()
    {
      Licensing.IssueKeepsValid(p, Contents(), input, appId, licenseId, attempts, suffix);
      var ensured := EnsureApp(input.appName, appId);
      if ensured.Err? {
        return Err(ensured.error);
      }
      var appName := ensured.value;
      var key := CreateUniqueLicenseKey(licenses, appName, attempts, suffix);
      var lock := Licensing.IssueLock(input.lockedMachineId);
      var license := License(licenseId, appName, key, LicenseActive, Licensing.IssueSeats(input.maxActivations), None,
                             Licensing.IssueMetadata(p, input.metadata, lock));
      if LicenseCollides(licenses, license) {
        return Err(DbConflict);
      }
      licenses := licenses + [license];
      r := Ok(license);
    }

    /** `setLicenseStatus(id, status)`. */
    method SetLicenseStatus(id: string, status: LicenseStatus)
      requires Valid()
      modifies this
      ensures Contents() == Licensing.SetLicenseStatus(old(Contents()), id, status)
      ensures Valid()
    {
      Licensing.SetLicenseStatusKeepsValid(Contents(), id, status);
      licenses := UpdateWhere(licenses, LicenseWithId(id), Licensing.SetStatus(status));
    }

    /** `updateLicenseById(id, {maxActivations, status})`. */
    method UpdateLicense(id: string, seats: Option<int>, status: Option<LicenseStatus>) returns (r: Result<License, Failure>)
      requires Valid()
      modifies this
      ensures Outcome(r, Contents()) == Licensing.UpdateLicense(old(Contents()), id, seats, status)
      ensures Valid()
    {
      Licensing.UpdateLicenseKeepsValid(Contents(), id, seats, status);
      var found := First(licenses, LicenseWithId(id));
      if found.None? {
        return Err(Refused(Licensing.LicenseNotFoundMessage));
      }
      var i := found.value;
      var existing := licenses[i];
      var nextSeats := Licensing.NextSeats(seats, existing.maxActivations);
      var nextStatus := if status.Some? then status.value else existing.status;
      licenses := UpdateWhere(licenses, LicenseWithId(id), Licensing.SetSeatsAndStatus(nextSeats, nextStatus));
      r := Ok(licenses[i]);
    }

    /** `deleteLicenseById(id)`: the logs of the licence's activations, its activations, the licence. */
    method DeleteLicense(id: string) returns (r: Result<(), Failure>)
      requires Valid()
      modifies this
      ensures Outcome(r, Contents()) == Licensing.DeleteLicense(old(Contents()), id)
      ensures Valid()
    {
      Licensing.DeleteLicenseKeepsValid(Contents(), id);
      var found := First(licenses, LicenseWithId(id));
      if found.None? {
        return Err(Refused(Licensing.LicenseNotFoundMessage));
      }
      var existing := licenses[found.value];
      var related := ActivationOfLicense(existing.appName, existing.licenseKey);
      var ids := ActivationIdsWhere(activations, related);
      if |ids| > 0 {
        logs := DeleteWhere(logs, LogOfAny(ids));
      }
      activations := DeleteWhere(activations, related);
      licenses := DeleteWhere(licenses, LicenseWithId(id));
      r := Ok(());
    }

    // ---- services/licensing.ts: activations ----

    /**
     * `activateLicense(input)`: the checks; then the triple's row updated in place, or a new
     * row inserted; then one log entry; then the signed token and the seats in use.
     */
    method Activate(keys: ActivationService.Keys, input: ActivationService.ActivateRequest, now: int,
                    newId: string, logId: string, nonce: seq<byte>) returns (r: Result<ActivationService.Grant, Failure>)
      requires Valid() && FreshActivationId(Contents(), newId) && FreshLogId(Contents(), logId) && |nonce| == 16
      modifies this
      ensures Outcome(r, Contents()) == ActivationService.Activate(keys, old(Contents()), input, now, newId, logId, nonce)
      ensures Valid()
    {
      ActivationService.ActivateKeepsValid(keys, Contents(), input, now, newId, logId, nonce);
      var admitted := ActivationService.Admit(keys.p, Contents(), input, now);
      if admitted.Err? {
        return Err(admitted.error);
      }
      var grant := Admitted(keys, input, admitted.value, now, newId, logId, nonce);
      r := Ok(grant);
    }

    /**
     * The writes of `activateLicense` once the checks passed: the triple's row updated in
     * place, or a new row inserted; then one log entry; then the signed token and the seats in use.
     */
    method Admitted(keys: ActivationService.Keys, input: ActivationService.ActivateRequest, adm: ActivationService.Admission,
                    now: int, newId: string, logId: string, nonce: seq<byte>) returns (grant: ActivationService.Grant)
      requires adm.existing.Some? ==> adm.existing.value < |activations|
      requires |nonce| == 16
      modifies this
      ensures Outcome(Ok(grant), Contents()) == ActivationService.Admitted(keys, old(Contents()), input, adm, now, newId, logId, nonce)
    {
      var id := ActivationService.GrantedId(Contents(), adm, newId);
      var shop := ActivationService.ShopName(input.metadata);
      var text := ActivationService.MetadataText(keys.p, input.metadata);
      ghost var before := Contents();
      if adm.existing.Some? {
        activations := UpdateWhere(activations, ActivationWithId(activations[adm.existing.value].id),
                                   ActivationService.Reactivate(input.appVersion, shop, text, now, adm.license.expiresAt));
      } else {
        activations := activations + [Activation(newId, adm.appName, input.appVersion, input.licenseKey, input.machineId,
                                                 shop, Active, text, Some(now), adm.license.expiresAt)];
      }
      assert activations == ActivationService.ActivatedRows(keys.p, before, input, adm, now, newId);
      logs := logs + [ActivationService.ActivationLog(keys.p, logId, id, adm.existing.Some?, input.appVersion)];
      var expiry := ActivationService.TokenExpiry(adm.license, now, keys.ttlDays);
      var token := LicenseToken.Sign(keys.p, keys.secret, nonce,
                                     LicenseToken.SignRequest(adm.license.id, adm.appName, input.machineId, expiry), now);
      var used := Count(activations, ActiveOfLicense(adm.appName, input.licenseKey));
      grant := ActivationService.Grant(token, expiry, id, adm.appName, input.machineId, adm.license,
                                       Licensing.TypeOfLock(adm.lock), adm.license.maxActivations, used,
                                       Remaining(adm.license.maxActivations, used));
    }

    /**
     * `deactivateActivation(input)`: the token checks and the licence lookup; then every row
     * of the triple revoked, with no log entry, and the licence's usage.
     */
    method Deactivate(keys: ActivationService.Keys, input: ActivationService.CheckRequest, now: int)
      returns (r: Result<ActivationService.Usage, Failure>)
      requires Valid()
      modifies this
      ensures Outcome(r, Contents()) == ActivationService.Deactivate(keys, old(Contents()), input, now)
      ensures Valid()
    {
      ActivationService.DeactivateKeepsValid(keys, Contents(), input, now);
      var checked := ActivationService.CheckToken(keys, apps, input, now);
      if checked.Err? {
        return Err(checked.error);
      }
      var found := ActivationService.TokenLicense(licenses, checked.value.payload);
      if found.None? {
        return Err(Refused(Licensing.LicenseNotFoundMessage));
      }
      var license := licenses[found.value];
      var appName := checked.value.appName;
      activations := UpdateWhere(activations, ActivationOfMachine(appName, license.licenseKey, input.machineId),
                                 ActivationService.SetRevoked());
      var lock := Licensing.LockedMachineId(keys.p, license.metadata);
      var used := Count(activations, ActiveOfLicense(appName, license.licenseKey));
      r := Ok(ActivationService.Usage(Licensing.TypeOfLock(lock), license.maxActivations, used,
                                      Remaining(license.maxActivations, used)));
    }

    // ---- routes/activations.ts ----

    /** `POST /`: a pending row under the fresh id `id`. */
    method InsertPending(p: Primitives, req: ActivationRoutes.PendingRequest, id: string) returns (r: Result<Activation, Failure>)
      requires Valid() && FreshActivationId(Contents(), id)
      modifies this
      ensures Outcome(r, Contents()) == ActivationRoutes.InsertPending(p, old(Contents()), req, id)
      ensures Valid()
    {
      ActivationRoutes.InsertPendingKeepsValid(p, Contents(), req, id);
      var row := ActivationRoutes.PendingRow(p, req, id);
      if ActivationCollides(activations, row) {
        return Err(DbConflict);
      }
      activations := activations + [row];
      r := Ok(row);
    }

    /** `PATCH /:id/approve`: the update, then the log entry. */
    method Approve(id: string, now: int, logId: string) returns (r: Result<string, Failure>)
      requires Valid() && FreshLogId(Contents(), logId)
      modifies this
      ensures Outcome(r, Contents()) == ActivationRoutes.Approve(old(Contents()), id, now, logId)
      ensures Valid()
    {
      ActivationRoutes.ApproveKeepsValid(Contents(), id, now, logId);
      activations := UpdateWhere(activations, ActivationWithId(id), ActivationRoutes.SetApproved(now));
      logs := logs + [Log(logId, id, Approved, None)];
      r := Ok(ActivationRoutes.ApprovedMessage);
    }

    /** `PATCH /:id/revoke`: the update, then the log entry. */
    method Revoke(id: string, logId: string) returns (r: Result<string, Failure>)
      requires Valid() && FreshLogId(Contents(), logId)
      modifies this
      ensures Outcome(r, Contents()) == ActivationRoutes.Revoke(old(Contents()), id, logId)
      ensures Valid()
    {
      ActivationRoutes.RevokeKeepsValid(Contents(), id, logId);
      activations := UpdateWhere(activations, ActivationWithId(id), ActivationRoutes.SetRevoked());
      logs := logs + [Log(logId, id, RevokedAction, None)];
      r := Ok(ActivationRoutes.RevokedMessage);
    }
  }
}
