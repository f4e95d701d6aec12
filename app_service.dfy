/**
 * The app operations of `services/apps.ts` that write the tables: `createApp`,
 * `getOrCreateAppByName`, `updateAppById` (one transaction that renames an app and every
 * license and activation carrying its name) and `deleteAppById` (the app, its licenses, its
 * activations and their logs). Each is a step from the tables before to its result and the
 * tables after; `id` is the value `crypto.randomUUID()` returns.
 */
module AppService {
  import opened Wrappers
  import opened Text
  import opened Tables
  import opened Schema
  import opened AppNames

  const AppNameRequiredMessage := "App name is required"
  const AppNotFoundMessage := "App not found"
  const AppNameTakenMessage := "App name already exists"

  /** `slugify(name) || "app-" + id.slice(0, 8)`. */
  function NewAppSlug(name: string, id: string): string {
    var slug := Slugify(name);
    if slug != "" then slug else "app-" + id[..if |id| < 8 then |id| else 8]
  }

  /**
   * `createApp(name)`: a blank name is refused; an app that already has the trimmed name is
   * returned as it is; otherwise a new active app is inserted, unless its slug is taken.
   */
  function CreateApp(db: Db, name: string, id: string): (r: Outcome<App>)
    requires FreshAppId(db, id)
    ensures r.result.Err? ==> r.db == db
    ensures r.result == Err(Refused(AppNameRequiredMessage)) <==> Trim(name) == ""
    ensures r.result.Err? ==> r.result == Err(Refused(AppNameRequiredMessage)) || r.result == Err(DbConflict)
    ensures r.result.Ok? ==> r.result.value.name == Trim(name) && r.result.value in r.db.apps
    ensures r.result.Ok? && r.db != db ==>
      && r.db == db.(apps := db.apps + [r.result.value])
      && r.result.value == App(id, Trim(name), r.result.value.slug, AppActive, None)
      && r.result.value.slug != ""
      && forall j :: 0 <= j < |db.apps| ==> db.apps[j].name != Trim(name)
  {
    var normalized := Trim(name);
    if normalized == "" then Outcome(Err(Refused(AppNameRequiredMessage)), db)
    else match FindByName(db.apps, normalized)
      case Some(existing) => Outcome(Ok(existing), db)
      case None =>
        var app := App(id, normalized, NewAppSlug(normalized, id), AppActive, None);
        if AppCollides(db.apps, app) then Outcome(Err(DbConflict), db)
        else Outcome(Ok(app), db.(apps := db.apps + [app]))
  }

  /** `createApp` keeps the tables valid. */
  lemma CreateAppKeepsValid(db: Db, name: string, id: string)
    requires Valid(db) && FreshAppId(db, id)
    ensures Valid(CreateApp(db, name, id).db)
  {
    var normalized := Trim(name);
    if normalized != "" && FindByName(db.apps, normalized).None? {
      var app := App(id, normalized, NewAppSlug(normalized, id), AppActive, None);
      if !AppCollides(db.apps, app) {
        CreateAppInserts(db, name, id, app);
      } else {
        assert CreateApp(db, name, id).db == db;
      }
    }
  }

  /** A new name whose app the indexes admit is inserted at the end of the table, which stays valid. */
  lemma CreateAppInserts(db: Db, name: string, id: string, app: App)
    requires Valid(db) && FreshAppId(db, id)
    requires Trim(name) != "" && FindByName(db.apps, Trim(name)).None?
    requires app == App(id, Trim(name), NewAppSlug(Trim(name), id), AppActive, None) && !AppCollides(db.apps, app)
    ensures CreateApp(db, name, id) == Outcome(Ok(app), db.(apps := db.apps + [app]))
    ensures Valid(db.(apps := db.apps + [app]))
  {
    AppInsert(db.apps, app);
  }

  /**
   * A new app is refused by the database exactly when another app already holds its slug: the
   * name was checked first, and the id is fresh.
   */
  lemma CreateAppConflict(db: Db, name: string, id: string)
    requires FreshAppId(db, id)
    requires Trim(name) != "" && FindByName(db.apps, name).None?
    ensures CreateApp(db, name, id).result == Err(DbConflict) <==>
      exists j :: 0 <= j < |db.apps| && db.apps[j].slug == NewAppSlug(Trim(name), id)
  {
    var normalized := Trim(name);
    TrimIdempotent(name);
    assert FindByName(db.apps, normalized).None?;
    var app := App(id, normalized, NewAppSlug(normalized, id), AppActive, None);
    assert CreateApp(db, name, id).result == (if AppCollides(db.apps, app) then Err(DbConflict) else Ok(app));
    if AppCollides(db.apps, app) {
      var j :| 0 <= j < |db.apps| && (db.apps[j].id == id || db.apps[j].name == normalized || db.apps[j].slug == app.slug);
      assert db.apps[j].slug == app.slug;
    }
  }

  /** Creating an app twice under the same name: the second call returns the same app and changes nothing. */
  lemma CreateAppIdempotent(db: Db, name: string, id: string, id2: string)
    requires FreshAppId(db, id)
    requires CreateApp(db, name, id).result.Ok?
    requires FreshAppId(CreateApp(db, name, id).db, id2)
    ensures var first := CreateApp(db, name, id);
      CreateApp(first.db, name, id2) == first
  {
    var first := CreateApp(db, name, id);
    var normalized := Trim(name);
    TrimIdempotent(name);
    if FindByName(db.apps, normalized).None? {
      var app := App(id, normalized, NewAppSlug(normalized, id), AppActive, None);
      assert first == Outcome(Ok(app), db.(apps := db.apps + [app]));
      FindByNameAppend(db.apps, normalized, app);
      assert CreateApp(first.db, name, id2) == Outcome(Ok(app), first.db);
    }
  }

  /**
   * `getOrCreateAppByName(name)`: nothing for a blank name; the app with that exact name; or a
   * newly created one. A creation the database refuses fails the whole call.
   */
  function GetOrCreateApp(db: Db, name: string, id: string): (r: Outcome<Option<App>>)
    requires FreshAppId(db, id)
    ensures r.result.Err? ==> r.result == Err(DbConflict) && r.db == db
    ensures r.result == Ok(None) <==> Trim(name) == ""
    ensures r.result.Ok? && r.result.value.Some? ==> r.result.value.value.name == Trim(name) && r.result.value.value in r.db.apps
    ensures r.db == db || r.db == db.(apps := db.apps + [App(id, Trim(name), NewAppSlug(Trim(name), id), AppActive, None)])
  {
    var normalized := Trim(name);
    if normalized == "" then Outcome(Ok(None), db)
    else match FindByName(db.apps, normalized)
      case Some(existing) => Outcome(Ok(Some(existing)), db)
      case None =>
        TrimIdempotent(name);
        var created := CreateApp(db, normalized, id);
        var result := match created.result
          case Ok(app) => Ok(Some(app))
          case Err(DbConflict) => Err(DbConflict)
          case Err(_) => Ok(None);
        Outcome(result, created.db)
  }

  /** `getOrCreateAppByName` keeps the tables valid. */
  lemma GetOrCreateKeepsValid(db: Db, name: string, id: string)
    requires Valid(db) && FreshAppId(db, id)
    ensures Valid(GetOrCreateApp(db, name, id).db)
  {
    var normalized := Trim(name);
    if normalized != "" && FindByName(db.apps, normalized).None? {
      TrimIdempotent(name);
      CreateAppKeepsValid(db, normalized, id);
      assert GetOrCreateApp(db, name, id).db == CreateApp(db, normalized, id).db;
    }
  }

  /** The app row after an update: the new name, slug and status. */
  function RenameApp(name: string, slug: string, status: AppStatus): App -> App {
    (a: App) => a.(name := name, slug := slug, status := status)
  }

  function SetLicenseApp(name: string): License -> License {
    (l: License) => l.(appName := name)
  }

  function SetActivationApp(name: string): Activation -> Activation {
    (a: Activation) => a.(appName := name)
  }

  /** `input.name?.trim() || existing.name`. */
  function NextName(existing: App, name: Option<string>): string {
    if name.Some? && Trim(name.value) != "" then Trim(name.value) else existing.name
  }

  /** Another app holds the name exactly. */
  predicate NameHeldByOther(apps: seq<App>, name: string, id: string) {
    match FindByName(apps, name)
    case Some(d) => d.id != id
    case None => false
  }

  /** The tables after `updateAppById`'s transaction, before the database checks its indexes. */
  function Renamed(db: Db, existing: App, id: string, nextName: string, nextStatus: AppStatus): Db {
    var slug := Slugify(nextName);
    var nextSlug := if slug != "" then slug else existing.slug;
    var apps := UpdateWhere(db.apps, AppWithId(id), RenameApp(nextName, nextSlug, nextStatus));
    if nextName == existing.name then db.(apps := apps)
    else db.(apps := apps,
             licenses := UpdateWhere(db.licenses, LicenseOfApp(existing.name), SetLicenseApp(nextName)),
             activations := UpdateWhere(db.activations, ActivationOfApp(existing.name), SetActivationApp(nextName)))
  }

  /**
   * `updateAppById(id, {name, status})`: an unknown id is refused, and so is a new name that
   * another app holds; otherwise the transaction renames the app and, when the name changes,
   * every license and activation with the old name, and is rolled back as a whole when a
   * unique index breaks (a slug, or a license or activation that clashes under the new name).
   */
  function UpdateApp(db: Db, id: string, name: Option<string>, status: Option<AppStatus>): (r: Outcome<App>)
    ensures r.result.Err? ==> r.db == db
    ensures r.result == Err(Refused(AppNotFoundMessage)) <==> First(db.apps, AppWithId(id)).None?
    ensures r.result.Ok? ==> Indexed(r.db) && r.result.value.id == id && r.result.value in r.db.apps
    ensures r.result.Ok? ==> |r.db.licenses| == |db.licenses| && |r.db.activations| == |db.activations|
    ensures r.db.logs == db.logs
  {
    match First(db.apps, AppWithId(id))
    case None => Outcome(Err(Refused(AppNotFoundMessage)), db)
    case Some(i) =>
      var existing := db.apps[i];
      var nextName := NextName(existing, name);
      var nextStatus := if status.Some? then status.value else existing.status;
      if nextName != existing.name && NameHeldByOther(db.apps, nextName, id) then
        Outcome(Err(Refused(AppNameTakenMessage)), db)
      else
        var after := Renamed(db, existing, id, nextName, nextStatus);
        if !Indexed(after) then Outcome(Err(DbConflict), db)
        else Outcome(Ok(after.apps[i]), after)
  }

  /** The steps of `updateAppById` for a known id: the name check, then the transaction. */
  lemma UpdateAppSteps(db: Db, id: string, name: Option<string>, status: Option<AppStatus>, i: nat)
    requires First(db.apps, AppWithId(id)) == Some(i)
    ensures var r := UpdateApp(db, id, name, status);
      var next := NextName(db.apps[i], name);
      var nextStatus := if status.Some? then status.value else db.apps[i].status;
      && (r.result == Err(Refused(AppNameTakenMessage)) <==> next != db.apps[i].name && NameHeldByOther(db.apps, next, id))
      && (r.result.Ok? ==> r.db == Renamed(db, db.apps[i], id, next, nextStatus) && r.result.value == r.db.apps[i])
  {
  }

  /** The transaction touches no seat count and no activation id. */
  lemma RenamedKeepsRows(db: Db, existing: App, id: string, next: string, nextStatus: AppStatus)
    ensures var after := Renamed(db, existing, id, next, nextStatus);
      && |after.licenses| == |db.licenses| && |after.activations| == |db.activations|
      && (forall j :: 0 <= j < |db.licenses| ==> after.licenses[j].maxActivations == db.licenses[j].maxActivations)
      && (forall j :: 0 <= j < |db.activations| ==> after.activations[j].id == db.activations[j].id)
  {
  }

  /** The update keeps the tables valid: the database checked the indexes and no seat count is touched. */
  lemma UpdateAppKeepsValid(db: Db, id: string, name: Option<string>, status: Option<AppStatus>)
    requires Valid(db)
    ensures Valid(UpdateApp(db, id, name, status).db)
  {
    var r := UpdateApp(db, id, name, status);
    if r.result.Ok? {
      var i := First(db.apps, AppWithId(id)).value;
      var existing := db.apps[i];
      var next := NextName(existing, name);
      var nextStatus := if status.Some? then status.value else existing.status;
      UpdateAppSteps(db, id, name, status, i);
      assert r.db == Renamed(db, existing, id, next, nextStatus);
      RenamedKeepsValid(db, existing, id, next, nextStatus);
    }
  }

  /** A transaction the indexes admit leaves valid tables. */
  lemma RenamedKeepsValid(db: Db, existing: App, id: string, next: string, nextStatus: AppStatus)
    requires Valid(db) && Indexed(Renamed(db, existing, id, next, nextStatus))
    ensures Valid(Renamed(db, existing, id, next, nextStatus))
  {
    var after := Renamed(db, existing, id, next, nextStatus);
    RenamedKeepsRows(db, existing, id, next, nextStatus);
    assert SeatsPositive(after.licenses) by {
      forall j | 0 <= j < |after.licenses| ensures after.licenses[j].maxActivations >= 1 {
        assert after.licenses[j].maxActivations == db.licenses[j].maxActivations;
      }
    }
    assert ActivationIdsPresent(after.activations) by {
      forall j | 0 <= j < |after.activations| ensures after.activations[j].id != "" {
        assert after.activations[j].id == db.activations[j].id;
      }
    }
  }

  /** A rename from one name to another moves every license and activation of the old name. */
  lemma RenamedCascade(db: Db, existing: App, id: string, next: string, nextStatus: AppStatus)
    requires next != existing.name
    ensures var after := Renamed(db, existing, id, next, nextStatus);
      var before := existing.name;
      && |after.licenses| == |db.licenses| && |after.activations| == |db.activations|
      && (forall j :: 0 <= j < |db.licenses| ==>
            after.licenses[j] == (if db.licenses[j].appName == before then db.licenses[j].(appName := next) else db.licenses[j]))
      && (forall j :: 0 <= j < |db.activations| ==>
            after.activations[j] == (if db.activations[j].appName == before then db.activations[j].(appName := next) else db.activations[j]))
      && (forall j :: 0 <= j < |after.licenses| ==> after.licenses[j].appName != before)
      && (forall j :: 0 <= j < |after.activations| ==> after.activations[j].appName != before)
  {
  }

  /**
   * The rename cascade: after a successful rename, every license and activation that had the
   * old name has the new one, no row keeps the old name, and every other row is as it was.
   */
  lemma RenameCascade(db: Db, id: string, name: Option<string>, status: Option<AppStatus>, i: nat)
    requires First(db.apps, AppWithId(id)) == Some(i)
    requires UpdateApp(db, id, name, status).result.Ok?
    ensures var r := UpdateApp(db, id, name, status);
      var before := db.apps[i].name;
      var next := NextName(db.apps[i], name);
      next != before ==>
        && (forall j :: 0 <= j < |db.licenses| ==>
              r.db.licenses[j] == (if db.licenses[j].appName == before then db.licenses[j].(appName := next) else db.licenses[j]))
        && (forall j :: 0 <= j < |db.activations| ==>
              r.db.activations[j] == (if db.activations[j].appName == before then db.activations[j].(appName := next) else db.activations[j]))
        && (forall j :: 0 <= j < |r.db.licenses| ==> r.db.licenses[j].appName != before)
        && (forall j :: 0 <= j < |r.db.activations| ==> r.db.activations[j].appName != before)
  {
    var existing := db.apps[i];
    var next := NextName(existing, name);
    var nextStatus := if status.Some? then status.value else existing.status;
    UpdateAppSteps(db, id, name, status, i);
    if next != existing.name {
      RenamedCascade(db, existing, id, next, nextStatus);
      var r := UpdateApp(db, id, name, status);
      assert r.db == Renamed(db, existing, id, next, nextStatus);
    }
  }

  /** An update that keeps the name (a status-only update) leaves licenses and activations untouched. */
  lemma SameNameLeavesRows(db: Db, id: string, name: Option<string>, status: Option<AppStatus>, i: nat)
    requires i < |db.apps| && First(db.apps, AppWithId(id)) == Some(i)
    requires NextName(db.apps[i], name) == db.apps[i].name
    ensures var r := UpdateApp(db, id, name, status);
      r.db.licenses == db.licenses && r.db.activations == db.activations
  {
  }

  /** The updated row: the trimmed new name (else the old one), its slug (else the old slug), the new status (else the old one). */
  lemma UpdatedRow(db: Db, id: string, name: Option<string>, status: Option<AppStatus>, i: nat)
    requires i < |db.apps| && First(db.apps, AppWithId(id)) == Some(i)
    requires UpdateApp(db, id, name, status).result.Ok?
    ensures var app := UpdateApp(db, id, name, status).result.value;
      var next := NextName(db.apps[i], name);
      && app.name == next
      && app.slug == (if Slugify(next) != "" then Slugify(next) else db.apps[i].slug)
      && app.status == (if status.Some? then status.value else db.apps[i].status)
      && app.id == db.apps[i].id && app.metadata == db.apps[i].metadata
  {
    var existing := db.apps[i];
    var next := NextName(existing, name);
    var nextStatus := if status.Some? then status.value else existing.status;
    UpdateAppSteps(db, id, name, status, i);
    var nextSlug := if Slugify(next) != "" then Slugify(next) else existing.slug;
    var apps := UpdateWhere(db.apps, AppWithId(id), RenameApp(next, nextSlug, nextStatus));
    assert Renamed(db, existing, id, next, nextStatus).apps == apps;
    assert AppWithId(id)(existing);
    assert apps[i] == existing.(name := next, slug := nextSlug, status := nextStatus);
  }

  /** With unique names and ids, a trimmed name is held by another app exactly when some app with another id has it. */
  lemma NameHeldIff(apps: seq<App>, name: string, id: string)
    requires AppsIndexed(apps) && Trim(name) == name
    ensures NameHeldByOther(apps, name, id) <==> exists j :: 0 <= j < |apps| && apps[j].name == name && apps[j].id != id
  {
    if exists j :: 0 <= j < |apps| && apps[j].name == name && apps[j].id != id {
      var j :| 0 <= j < |apps| && apps[j].name == name && apps[j].id != id;
      var d := FindByName(apps, name);
      var k :| 0 <= k < |apps| && apps[k] == d.value;
      UniqueOne(apps, AppName);
      assert AppName(apps[j]) == AppName(apps[k]);
    }
  }

  /** With unique names, the new name is refused exactly when another app holds it. */
  lemma NameTakenRefusal(db: Db, id: string, name: Option<string>, status: Option<AppStatus>, i: nat)
    requires Valid(db)
    requires First(db.apps, AppWithId(id)) == Some(i)
    ensures UpdateApp(db, id, name, status).result == Err(Refused(AppNameTakenMessage)) <==>
      var next := NextName(db.apps[i], name);
      next != db.apps[i].name && exists j :: 0 <= j < |db.apps| && db.apps[j].name == next && db.apps[j].id != id
  {
    var next := NextName(db.apps[i], name);
    UpdateAppSteps(db, id, name, status, i);
    if next != db.apps[i].name {
      TrimIdempotent(name.value);
      NameHeldIff(db.apps, next, id);
    }
  }

  /** The app row removed, and what `deleteAppById` removes with it. */
  function DeletedApp(db: Db, name: string, id: string): Db {
    var ids := ActivationIdsWhere(db.activations, ActivationOfApp(name));
    Db(DeleteWhere(db.apps, AppWithId(id)),
       DeleteWhere(db.licenses, LicenseOfApp(name)),
       DeleteWhere(db.activations, ActivationOfApp(name)),
       DeleteWhere(db.logs, LogOfAny(ids)))
  }

  /**
   * `deleteAppById(id)`: an unknown id is refused with no change; otherwise the logs of the app's
   * activations, the activations, the licenses and the app row are deleted.
   */
  function DeleteApp(db: Db, id: string): (r: Outcome<()>)
    ensures r.result.Err? ==> r.result == Err(Refused(AppNotFoundMessage)) && r.db == db
    ensures r.result.Err? <==> First(db.apps, AppWithId(id)).None?
    ensures forall j :: 0 <= j < |r.db.apps| ==> r.db.apps[j] in db.apps
  {
    match First(db.apps, AppWithId(id))
    case None => Outcome(Err(Refused(AppNotFoundMessage)), db)
    case Some(i) => Outcome(Ok(()), DeletedApp(db, db.apps[i].name, id))
  }

  /**
   * The delete cascade: no app with the id, no license or activation with the app's name and no
   * log of a removed activation is left, and every other row is kept.
   */
  lemma DeleteCascade(db: Db, id: string, i: nat)
    requires i < |db.apps| && First(db.apps, AppWithId(id)) == Some(i)
    ensures var after := DeleteApp(db, id).db;
      var name := db.apps[i].name;
      && (forall j :: 0 <= j < |after.apps| ==> after.apps[j].id != id)
      && (forall j :: 0 <= j < |after.licenses| ==> after.licenses[j].appName != name)
      && (forall j :: 0 <= j < |after.activations| ==> after.activations[j].appName != name)
      && (forall j, k :: 0 <= j < |after.logs| && 0 <= k < |db.activations| && db.activations[k].appName == name ==>
            after.logs[j].activationId != db.activations[k].id)
  {
    var after := DeleteApp(db, id).db;
    var name := db.apps[i].name;
    var ids := ActivationIdsWhere(db.activations, ActivationOfApp(name));
    forall j, k | 0 <= j < |after.logs| && 0 <= k < |db.activations| && db.activations[k].appName == name
      ensures after.logs[j].activationId != db.activations[k].id
    {
      assert db.activations[k].id in ids;
      assert !LogOfAny(ids)(after.logs[j]);
    }
  }

  /** The log belongs to no activation carrying the app name `name`. */
  predicate OfOtherActivations(activations: seq<Activation>, name: string, g: Log) {
    forall k :: 0 <= k < |activations| && activations[k].appName == name ==> activations[k].id != g.activationId
  }

  /** The rows of other apps, and the logs of their activations, survive the delete. */
  lemma DeleteKeepsOthers(db: Db, id: string, i: nat)
    requires i < |db.apps| && First(db.apps, AppWithId(id)) == Some(i)
    ensures var after := DeleteApp(db, id).db;
      var name := db.apps[i].name;
      && (forall j :: 0 <= j < |db.apps| && db.apps[j].id != id ==> db.apps[j] in after.apps)
      && (forall j :: 0 <= j < |db.licenses| && db.licenses[j].appName != name ==> db.licenses[j] in after.licenses)
      && (forall j :: 0 <= j < |db.activations| && db.activations[j].appName != name ==> db.activations[j] in after.activations)
      && (forall j :: 0 <= j < |db.logs| && OfOtherActivations(db.activations, name, db.logs[j]) ==> db.logs[j] in after.logs)
  {
    var after := DeleteApp(db, id).db;
    var ids := ActivationIdsWhere(db.activations, ActivationOfApp(db.apps[i].name));
    forall j | 0 <= j < |db.logs| && OfOtherActivations(db.activations, db.apps[i].name, db.logs[j])
      ensures db.logs[j] in after.logs
    {
      assert !LogOfAny(ids)(db.logs[j]);
    }
  }

  /** Deleting keeps the tables valid. */
  lemma DeleteAppKeepsValid(db: Db, id: string)
    requires Valid(db)
    ensures Valid(DeleteApp(db, id).db)
  {
    match First(db.apps, AppWithId(id))
    case None =>
    case Some(i) =>
      var name := db.apps[i].name;
      var ids := ActivationIdsWhere(db.activations, ActivationOfApp(name));
      UniqueDelete(db.apps, AppWithId(id), AppId);
      UniqueDelete(db.apps, AppWithId(id), AppName);
      UniqueDelete(db.apps, AppWithId(id), AppSlug);
      UniqueDelete(db.licenses, LicenseOfApp(name), LicenseId);
      UniqueDelete(db.licenses, LicenseOfApp(name), LicenseAppKey);
      UniqueDelete(db.activations, ActivationOfApp(name), ActivationId);
      UniqueDelete(db.activations, ActivationOfApp(name), ActivationTriple);
      UniqueDelete(db.logs, LogOfAny(ids), LogId);
  }
}
