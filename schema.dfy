/**
 * The licensing tables of `db/auth-schema.ts`: apps, licenses, activations and activation
 * logs, their status values, and the unique indexes that the database enforces on them.
 * Timestamps other than the expiry and activation instants (`createdAt`, `updatedAt`) and the
 * columns no service writes (`activations.userId`, `activation_logs.ipAddress`/`userAgent`) are
 * not part of the rows.
 */
module Schema {
  import opened Wrappers
  import opened Json
  import opened Tables

  /** `apps.status`: "active" | "inactive". */
  datatype AppStatus = AppActive | AppInactive

  /** `licenses.status`: "active" | "revoked". */
  datatype LicenseStatus = LicenseActive | LicenseRevoked

  /** `activations.status`: "pending" | "active" | "revoked". */
  datatype ActivationStatus = Pending | Active | Revoked

  /** `activation_logs.action`: "activated" | "reactivated" | "approved" | "revoked". */
  datatype LogAction = Activated | Reactivated | Approved | RevokedAction

  /** The column defaults: a license is active with one seat, an activation is pending. */
  const DefaultLicenseStatus := LicenseActive
  const DefaultMaxActivations := 1
  const DefaultActivationStatus := Pending

  datatype App = App(id: string, name: string, slug: string, status: AppStatus, metadata: Option<string>)

  /** Instants are milliseconds since the epoch. */
  datatype License = License(id: string, appName: string, licenseKey: string, status: LicenseStatus,
                             maxActivations: int, expiresAt: Option<int>, metadata: Option<string>)

  /** `shopName` holds the request's `metadata.shopName` as it was sent. */
  datatype Activation = Activation(id: string, appName: string, appVersion: string, licenseKey: string,
                                   machineId: string, shopName: Option<Json>, status: ActivationStatus,
                                   metadata: Option<string>, activatedAt: Option<int>, expiresAt: Option<int>)

  /** `activationId` is `NOT NULL`; nothing ties it to an existing activation. */
  datatype Log = Log(id: string, activationId: string, action: LogAction, metadata: Option<string>)

  /** The four tables, each in insertion order. */
  datatype Db = Db(apps: seq<App>, licenses: seq<License>, activations: seq<Activation>, logs: seq<Log>)

  // The keys of the primary keys and unique indexes.
  const AppId: App -> string := (a: App) => a.id
  const AppName: App -> string := (a: App) => a.name
  const AppSlug: App -> string := (a: App) => a.slug
  const LicenseId: License -> string := (l: License) => l.id
  const LicenseAppKey: License -> (string, string) := (l: License) => (l.appName, l.licenseKey)
  const ActivationId: Activation -> string := (a: Activation) => a.id
  const ActivationTriple: Activation -> (string, string, string) :=
    (a: Activation) => (a.appName, a.licenseKey, a.machineId)
  const LogId: Log -> string := (g: Log) => g.id

  /** `apps_name_uidx`, `apps_slug_uidx` and the primary key. */
  predicate AppsIndexed(apps: seq<App>) {
    Unique(apps, AppId) && Unique(apps, AppName) && Unique(apps, AppSlug)
  }

  /** `licenses_app_key_uidx` and the primary key. */
  predicate LicensesIndexed(licenses: seq<License>) {
    Unique(licenses, LicenseId) && Unique(licenses, LicenseAppKey)
  }

  /** `activations_app_license_machine_uidx` and the primary key. */
  predicate ActivationsIndexed(activations: seq<Activation>) {
    Unique(activations, ActivationId) && Unique(activations, ActivationTriple)
  }

  predicate LogsIndexed(logs: seq<Log>) {
    Unique(logs, LogId)
  }

  /** An inserted row the database refuses: it shares its id, name or slug with an app. */
  predicate AppCollides(apps: seq<App>, a: App) {
    exists j :: 0 <= j < |apps| && (apps[j].id == a.id || apps[j].name == a.name || apps[j].slug == a.slug)
  }

  /** An inserted license that shares its id, or its app and key, with a license. */
  predicate LicenseCollides(licenses: seq<License>, l: License) {
    exists j :: 0 <= j < |licenses| && (licenses[j].id == l.id || LicenseAppKey(licenses[j]) == LicenseAppKey(l))
  }

  /** An inserted activation that shares its id, or its triple, with an activation. */
  predicate ActivationCollides(activations: seq<Activation>, a: Activation) {
    exists j :: 0 <= j < |activations| && (activations[j].id == a.id || ActivationTriple(activations[j]) == ActivationTriple(a))
  }

  /** An insert the database accepts keeps the app indexes. */
  lemma AppInsert(apps: seq<App>, a: App)
    requires AppsIndexed(apps) && !AppCollides(apps, a)
    ensures AppsIndexed(apps + [a])
  {
    UniqueAppend(apps, a, AppId);
    UniqueAppend(apps, a, AppName);
    UniqueAppend(apps, a, AppSlug);
  }

  lemma LicenseInsert(licenses: seq<License>, l: License)
    requires LicensesIndexed(licenses) && !LicenseCollides(licenses, l)
    ensures LicensesIndexed(licenses + [l])
  {
    UniqueAppend(licenses, l, LicenseId);
    UniqueAppend(licenses, l, LicenseAppKey);
  }

  lemma ActivationInsert(activations: seq<Activation>, a: Activation)
    requires ActivationsIndexed(activations) && !ActivationCollides(activations, a)
    ensures ActivationsIndexed(activations + [a])
  {
    UniqueAppend(activations, a, ActivationId);
    UniqueAppend(activations, a, ActivationTriple);
  }

  /** Every license grants at least one seat: the services never store less. */
  predicate SeatsPositive(licenses: seq<License>) {
    forall i :: 0 <= i < |licenses| ==> licenses[i].maxActivations >= 1
  }

  /** Every activation id is a non-empty UUID: the services insert no other. */
  predicate ActivationIdsPresent(activations: seq<Activation>) {
    forall i :: 0 <= i < |activations| ==> activations[i].id != ""
  }

  /** The unique indexes and primary keys of the four tables: what the database refuses to break. */
  predicate Indexed(db: Db) {
    && AppsIndexed(db.apps)
    && LicensesIndexed(db.licenses)
    && ActivationsIndexed(db.activations)
    && LogsIndexed(db.logs)
  }

  /** What the database and the services keep true of the tables. */
  predicate Valid(db: Db) {
    Indexed(db) && SeatsPositive(db.licenses) && ActivationIdsPresent(db.activations)
  }

  /** An id that no row of the table carries: what `crypto.randomUUID()` returns, never empty. */
  predicate FreshAppId(db: Db, id: string) {
    id != "" && forall i :: 0 <= i < |db.apps| ==> db.apps[i].id != id
  }

  predicate FreshLicenseId(db: Db, id: string) {
    id != "" && forall i :: 0 <= i < |db.licenses| ==> db.licenses[i].id != id
  }

  predicate FreshActivationId(db: Db, id: string) {
    id != "" && forall i :: 0 <= i < |db.activations| ==> db.activations[i].id != id
  }

  predicate FreshLogId(db: Db, id: string) {
    id != "" && forall i :: 0 <= i < |db.logs| ==> db.logs[i].id != id
  }

  // The `WHERE` conditions of the services' statements.

  function AppWithId(id: string): App -> bool {
    (a: App) => a.id == id
  }

  function LicenseWithId(id: string): License -> bool {
    (l: License) => l.id == id
  }

  /** `licenses.appName = name`. */
  function LicenseOfApp(name: string): License -> bool {
    (l: License) => l.appName == name
  }

  /** `activations.appName = name`. */
  function ActivationOfApp(name: string): Activation -> bool {
    (a: Activation) => a.appName == name
  }

  function ActivationWithId(id: string): Activation -> bool {
    (a: Activation) => a.id == id
  }

  /** `activations.appName = appName AND activations.licenseKey = key`. */
  function ActivationOfLicense(appName: string, key: string): Activation -> bool {
    (a: Activation) => a.appName == appName && a.licenseKey == key
  }

  /** The `(appName, licenseKey, machineId)` triple. */
  function ActivationOfMachine(appName: string, key: string, machineId: string): Activation -> bool {
    (a: Activation) => a.appName == appName && a.licenseKey == key && a.machineId == machineId
  }

  /** The seats of a license in use: its activations with status `active`. */
  function ActiveOfLicense(appName: string, key: string): Activation -> bool {
    (a: Activation) => a.appName == appName && a.licenseKey == key && a.status == Active
  }

  /** `activation_logs.activationId IN ids`. */
  function LogOfAny(ids: seq<string>): Log -> bool {
    (g: Log) => g.activationId in ids
  }

  /** The ids of the activations that `p` selects (`SELECT id ... WHERE p`). */
  function ActivationIdsWhere(activations: seq<Activation>, p: Activation -> bool): (ids: seq<string>)
    ensures forall j :: 0 <= j < |activations| && p(activations[j]) ==> activations[j].id in ids
    ensures forall x :: x in ids ==> exists j :: 0 <= j < |activations| && p(activations[j]) && activations[j].id == x
    ensures |ids| == 0 <==> forall j :: 0 <= j < |activations| ==> !p(activations[j])
  {
    if |activations| == 0 then []
    else
      var rest := ActivationIdsWhere(activations[1..], p);
      assert forall j :: 1 <= j < |activations| ==> activations[1..][j - 1] == activations[j];
      (if p(activations[0]) then [activations[0].id] else []) + rest
  }

  /** The number of seats in use, and the seats left: `max(maxActivations - used, 0)`. */
  function Remaining(maxActivations: int, used: int): (r: int)
    ensures r >= 0 && r >= maxActivations - used
    ensures r == 0 || r == maxActivations - used
  {
    if maxActivations - used > 0 then maxActivations - used else 0
  }

  /** How an operation fails. */
  datatype Failure =
    | AppNameRequired                  // `Error("APP_NAME_REQUIRED")` is thrown
    | AppNotFound                      // `Error("APP_NOT_FOUND")` is thrown
    | Refused(message: string)         // `{ ok: false, error }` or `{ valid: false, reason }`
    | Rejected(status: int, message: string)   // `{ ok: false, status, error }`
    | DbConflict                       // the database refuses a write that breaks a unique index

  /** An operation's result and the tables after it. */
  datatype Outcome<T> = Outcome(result: Result<T, Failure>, db: Db)
}
