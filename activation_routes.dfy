/**
 * The administrator's activation routes of `routes/activations.ts`: the status counts, the
 * manual insert of a pending activation, the approve and revoke transitions (each appending one
 * log entry), and the fetch of one activation with its logs.
 */
module ActivationRoutes {
  import opened Wrappers
  import opened Json
  import opened Encoding
  import opened Tables
  import opened Schema
  import ActivationService

  const NotFoundMessage := "Activation not found"
  const ApprovedMessage := "Activation approved"
  const RevokedMessage := "Activation revoked"

  // ---- GET /stats ----

  datatype Stats = Stats(total: nat, active: nat, pending: nat, revoked: nat)

  /** `activations.status = status`. */
  function WithStatus(status: ActivationStatus): Activation -> bool {
    (a: Activation) => a.status == status
  }

  /** `SELECT count(*)` of every row and of the rows with each status. */
  function StatusCounts(activations: seq<Activation>): (r: Stats)
    ensures r.total == |activations|
    ensures r.active <= r.total && r.pending <= r.total && r.revoked <= r.total
  {
    Stats(|activations|, Count(activations, WithStatus(Active)), Count(activations, WithStatus(Pending)),
          Count(activations, WithStatus(Revoked)))
  }

  /** Every row has exactly one of the three statuses, so the three counts add up to the total. */
  lemma StatsAddUp(activations: seq<Activation>)
    ensures var r := StatusCounts(activations);
      r.total == r.active + r.pending + r.revoked
  {
    var notPending := (a: Activation) => a.status != Pending;
    var any := (a: Activation) => true;
    CountSplit(activations, WithStatus(Active), WithStatus(Revoked), notPending);
    CountSplit(activations, WithStatus(Pending), notPending, any);
    CountAll(activations, any);
  }

  // ---- POST / ----

  /** The body of the manual insert; `metadata` is `None` when absent. */
  datatype PendingRequest = PendingRequest(appName: string, appVersion: string, licenseKey: string, machineId: string,
                                           metadata: Option<Json>)

  /** The row the manual insert writes: pending, no shop, no activation or expiry instant. */
  function PendingRow(p: Primitives, req: PendingRequest, id: string): Activation {
    Activation(id, req.appName, req.appVersion, req.licenseKey, req.machineId, None, Pending,
               ActivationService.MetadataText(p, req.metadata), None, None)
  }

  /**
   * `POST /`: inserts a pending activation under a fresh id, with no check of the licence or
   * the seats; a triple that already has a row breaks the unique index and writes nothing.
   */
  function InsertPending(p: Primitives, db: Db, req: PendingRequest, id: string): (r: Outcome<Activation>)
    requires FreshActivationId(db, id)
    ensures r.result.Err? <==> exists j :: 0 <= j < |db.activations| &&
                                 ActivationTriple(db.activations[j]) == (req.appName, req.licenseKey, req.machineId)
    ensures r.result.Err? ==> r.result.error == DbConflict && r.db == db
    ensures r.result.Ok? ==> r.result.value.status == Pending && r.result.value.id == id
    ensures r.result.Ok? ==> r.db == db.(activations := db.activations + [r.result.value])
  {
    var row := PendingRow(p, req, id);
    if ActivationCollides(db.activations, row) then Outcome(Err(DbConflict), db)
    else Outcome(Ok(row), db.(activations := db.activations + [row]))
  }

  lemma InsertPendingKeepsValid(p: Primitives, db: Db, req: PendingRequest, id: string)
    requires Valid(db) && FreshActivationId(db, id)
    ensures Valid(InsertPending(p, db, req, id).db)
  {
    var row := PendingRow(p, req, id);
    if !ActivationCollides(db.activations, row) {
      ActivationInsert(db.activations, row);
    }
  }

  /** A manual insert leaves the seats in use unchanged: a pending row takes no seat. */
  lemma InsertPendingTakesNoSeat(p: Primitives, db: Db, req: PendingRequest, id: string, appName: string, key: string)
    requires FreshActivationId(db, id)
    ensures var r := InsertPending(p, db, req, id);
      Count(r.db.activations, ActiveOfLicense(appName, key)) == Count(db.activations, ActiveOfLicense(appName, key))
  {
    var row := PendingRow(p, req, id);
    CountAppend(db.activations, row, ActiveOfLicense(appName, key));
  }

  // ---- PATCH /:id/approve and /:id/revoke ----

  function SetApproved(now: int): Activation -> Activation {
    (a: Activation) => a.(status := Active, activatedAt := Some(now))
  }

  function SetRevoked(): Activation -> Activation {
    (a: Activation) => a.(status := Revoked)
  }

  /** The tables after a transition of the rows with `id` and the append of one log entry for `id`. */
  function Transition(db: Db, id: string, f: Activation -> Activation, logId: string, action: LogAction): Db {
    db.(activations := UpdateWhere(db.activations, ActivationWithId(id), f), logs := db.logs + [Log(logId, id, action, None)])
  }

  /**
   * `PATCH /:id/approve`: the row with `id` becomes active since `now`, with no check of its
   * licence or the seats, and one `approved` entry is logged, whether or not a row has that id.
   */
  function Approve(db: Db, id: string, now: int, logId: string): (r: Outcome<string>)
    requires FreshLogId(db, logId)
    ensures r.result == Ok(ApprovedMessage)
    ensures r.db.apps == db.apps && r.db.licenses == db.licenses
    ensures r.db.logs == db.logs + [Log(logId, id, Approved, None)]
  {
    Outcome(Ok(ApprovedMessage), Transition(db, id, SetApproved(now), logId, Approved))
  }

  /**
   * `PATCH /:id/revoke`: the row with `id` becomes revoked and one `revoked` entry is logged,
   * whether or not a row has that id.
   */
  function Revoke(db: Db, id: string, logId: string): (r: Outcome<string>)
    requires FreshLogId(db, logId)
    ensures r.result == Ok(RevokedMessage)
    ensures r.db.apps == db.apps && r.db.licenses == db.licenses
    ensures r.db.logs == db.logs + [Log(logId, id, RevokedAction, None)]
  {
    Outcome(Ok(RevokedMessage), Transition(db, id, SetRevoked(), logId, RevokedAction))
  }

  /** A transition changes only the rows with the id, and only as `f` does. */
  lemma TransitionRows(db: Db, id: string, f: Activation -> Activation, logId: string, action: LogAction)
    ensures var after := Transition(db, id, f, logId, action).activations;
      && |after| == |db.activations|
      && (forall j :: 0 <= j < |db.activations| && db.activations[j].id == id ==> after[j] == f(db.activations[j]))
      && (forall j :: 0 <= j < |db.activations| && db.activations[j].id != id ==> after[j] == db.activations[j])
  {
  }

  /** Approve: every row with the id is active since `now` and otherwise unchanged; no other row changes. */
  lemma ApproveRows(db: Db, id: string, now: int, logId: string)
    requires FreshLogId(db, logId)
    ensures var after := Approve(db, id, now, logId).db.activations;
      && |after| == |db.activations|
      && (forall j :: 0 <= j < |db.activations| && db.activations[j].id == id ==>
            after[j] == db.activations[j].(status := Active, activatedAt := Some(now)))
      && (forall j :: 0 <= j < |db.activations| && db.activations[j].id != id ==> after[j] == db.activations[j])
  {
    TransitionRows(db, id, SetApproved(now), logId, Approved);
  }

  /** Revoke: every row with the id is revoked and otherwise unchanged; no other row changes. */
  lemma RevokeRows(db: Db, id: string, logId: string)
    requires FreshLogId(db, logId)
    ensures var after := Revoke(db, id, logId).db.activations;
      && |after| == |db.activations|
      && (forall j :: 0 <= j < |db.activations| && db.activations[j].id == id ==> after[j] == db.activations[j].(status := Revoked))
      && (forall j :: 0 <= j < |db.activations| && db.activations[j].id != id ==> after[j] == db.activations[j])
  {
    TransitionRows(db, id, SetRevoked(), logId, RevokedAction);
  }

  /** An id no row carries leaves the activations as they were; the log entry is still appended. */
  lemma TransitionOfMissingId(db: Db, id: string, f: Activation -> Activation, logId: string, action: LogAction)
    requires forall j :: 0 <= j < |db.activations| ==> db.activations[j].id != id
    ensures Transition(db, id, f, logId, action).activations == db.activations
    ensures |Transition(db, id, f, logId, action).logs| == |db.logs| + 1
  {
    TransitionRows(db, id, f, logId, action);
  }

  /**
   * Approving takes one more seat of the row's licence when the row was not active, whatever
   * the licence's limit.
   */
  lemma ApproveTakesSeat(db: Db, k: nat, now: int, logId: string)
    requires Unique(db.activations, ActivationId) && k < |db.activations| && FreshLogId(db, logId)
    requires db.activations[k].status != Active
    ensures var a := db.activations[k];
      var after := Approve(db, a.id, now, logId).db.activations;
      Count(after, ActiveOfLicense(a.appName, a.licenseKey)) == Count(db.activations, ActiveOfLicense(a.appName, a.licenseKey)) + 1
  {
    var a := db.activations[k];
    ActivationService.UpdateById(db.activations, k, SetApproved(now));
    CountSet(db.activations, k, SetApproved(now)(a), ActiveOfLicense(a.appName, a.licenseKey));
  }

  /** Revoking an active row frees one seat of its licence. */
  lemma RevokeFreesSeat(db: Db, k: nat, logId: string)
    requires Unique(db.activations, ActivationId) && k < |db.activations| && FreshLogId(db, logId)
    requires db.activations[k].status == Active
    ensures var a := db.activations[k];
      var after := Revoke(db, a.id, logId).db.activations;
      Count(after, ActiveOfLicense(a.appName, a.licenseKey)) + 1 == Count(db.activations, ActiveOfLicense(a.appName, a.licenseKey))
  {
    var a := db.activations[k];
    ActivationService.UpdateById(db.activations, k, SetRevoked());
    CountSet(db.activations, k, SetRevoked()(a), ActiveOfLicense(a.appName, a.licenseKey));
  }

  lemma TransitionKeepsValid(db: Db, id: string, f: Activation -> Activation, logId: string, action: LogAction)
    requires Valid(db) && FreshLogId(db, logId)
    requires forall a: Activation :: f(a).id == a.id && ActivationTriple(f(a)) == ActivationTriple(a)
    ensures Valid(Transition(db, id, f, logId, action))
  {
    UniqueUpdate(db.activations, ActivationWithId(id), f, ActivationId);
    UniqueUpdate(db.activations, ActivationWithId(id), f, ActivationTriple);
    UniqueAppend(db.logs, Log(logId, id, action, None), LogId);
    TransitionRows(db, id, f, logId, action);
  }

  lemma ApproveKeepsValid(db: Db, id: string, now: int, logId: string)
    requires Valid(db) && FreshLogId(db, logId)
    ensures Valid(Approve(db, id, now, logId).db)
  {
    TransitionKeepsValid(db, id, SetApproved(now), logId, Approved);
  }

  lemma RevokeKeepsValid(db: Db, id: string, logId: string)
    requires Valid(db) && FreshLogId(db, logId)
    ensures Valid(Revoke(db, id, logId).db)
  {
    TransitionKeepsValid(db, id, SetRevoked(), logId, RevokedAction);
  }

  // ---- GET /:id ----

  /** `activation_logs.activationId = id`. */
  function LogOf(id: string): Log -> bool {
    (g: Log) => g.activationId == id
  }

  datatype Detail = Detail(activation: Activation, logs: seq<Log>)

  /**
   * `GET /:id`: the first activation with the id and exactly the logs that name it; "Activation
   * not found" when no row has the id.
   */
  function GetActivation(db: Db, id: string): (r: Result<Detail, Failure>)
    ensures r.Err? <==> forall j :: 0 <= j < |db.activations| ==> db.activations[j].id != id
    ensures r.Err? ==> r.error == Refused(NotFoundMessage)
    ensures r.Ok? ==> r.value.activation in db.activations && r.value.activation.id == id
    ensures r.Ok? ==> forall j :: 0 <= j < |r.value.logs| ==> r.value.logs[j] in db.logs && r.value.logs[j].activationId == id
    ensures r.Ok? ==> forall j :: 0 <= j < |db.logs| && db.logs[j].activationId == id ==> db.logs[j] in r.value.logs
  {
    match First(db.activations, ActivationWithId(id))
    case None => Err(Refused(NotFoundMessage))
    case Some(k) => Ok(Detail(db.activations[k], SelectWhere(db.logs, LogOf(id))))
  }
}
