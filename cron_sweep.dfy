/**
 * The daily cron endpoint (app/api/cron/process-invoices/route.ts): it checks the
 * bearer secret, lists the invoices due today and, for each one, snapshots it as a
 * history row, delivers it, and either advances the schedule or rolls the snapshot back.
 *
 * `ProcessOne` and `Sweep` are the specification; `Get` runs the loop on the store.
 */
module CronSweep {
  import opened Wrappers
  import opened Calendar
  import opened Records
  import opened StoreOps
  import Store

  /** The `status` of one entry of `results` ('success' | 'error'). */
  datatype ItemStatus = ItemSuccess | ItemError

  /** One entry of `results`: `historyRecordId` only on success, `error` only on failure. */
  datatype SweepResult = SweepResult(
    id: InvoiceId,
    email: string,
    concept: string,
    status: ItemStatus,
    historyRecordId: Option<InvoiceId>,
    error: Option<string>)

  /** The endpoint's JSON answers. */
  datatype Response =
    | Unauthorized                                   // 401
    | NothingDue                                     // 200, processed: 0
    | Completed(processed: nat, successful: nat, errors: nat, results: seq<SweepResult>)
    | ServerError(details: string)                   // 500

  /**
   * `authHeader !== \`Bearer ${process.env.CRON_SECRET}\``: the header must equal the
   * template, in which an unset secret reads as the text "undefined".
   */
  predicate Authorized(authHeader: Option<string>, cronSecret: Option<string>) {
    authHeader == Some("Bearer " + cronSecret.GetOr("undefined"))
  }

  /** A request without an Authorization header is always refused. */
  lemma MissingHeaderRefused(cronSecret: Option<string>)
    ensures !Authorized(None, cronSecret)
  {
  }

  /** With the secret set, exactly the header `Bearer <secret>` is accepted. */
  lemma OnlyBearerSecretAccepted(authHeader: Option<string>, secret: string)
    ensures Authorized(authHeader, Some(secret)) <==> authHeader == Some("Bearer " + secret)
  {
  }

  /** With the secret unset, the literal header `Bearer undefined` is accepted. */
  lemma UnsetSecretAcceptsUndefined()
    ensures Authorized(Some("Bearer undefined"), None)
    ensures !Authorized(Some("Bearer "), None)
  {
    assert "Bearer " + "undefined" == "Bearer undefined";
    assert "Bearer " != "Bearer undefined";
  }

  /** The catch block: logs the thrown message as a failure of the original invoice. */
  function Caught(db: Db, inv: ScheduledInvoice, message: string, f: Faults): (r: (Db, SweepResult))
    ensures r.0.rows == db.rows && r.0.nextSerial == db.nextSerial
    ensures r.0.logs == db.logs + (if f.catchLog then [] else [EmailLog(inv.id, inv.email, LogFailed, ErrorColumn(Some(message)))])
    ensures r.1 == SweepResult(inv.id, inv.email, inv.concept, ItemError, None, Some(message))
  {
    (LogEmailSent(db, inv.id, inv.email, LogFailed, Some(message), f.catchLog),
     SweepResult(inv.id, inv.email, inv.concept, ItemError, None, Some(message)))
  }

  /** The body of the `for` loop (route.ts:35-101) for the k-th due invoice. */
  function ProcessOne(db: Db, inv: ScheduledInvoice, k: nat, now: Instant, env: Environment): (r: (Db, SweepResult))
    requires IsValid(now.date)
    ensures r.1.id == inv.id && r.1.email == inv.email && r.1.concept == inv.concept
    ensures WellFormed(db) ==> WellFormed(r.0)
  {
    var f := env.faults(k);
    var (db1, h) := CreateInvoiceHistoryRecord(db, inv, now, f.history);
    if h.Failure? then Caught(db1, inv, h.error, f)
    else
      match env.deliver(k)
      case Delivered =>
        var (db2, u) := UpdateLastSent(db1, inv.id, now, f.fetch, f.update);
        if u.Fail? then Caught(db2, inv, u.error, f)
        else
          (LogEmailSent(db2, inv.id, inv.email, LogSuccess, None, f.outcomeLog),
           SweepResult(inv.id, inv.email, inv.concept, ItemSuccess, Some(h.value), None))
      case DeliveryFailed(e) =>
        var (db2, d) := DeleteInvoice(db1, h.value, f.delete);
        if d.Fail? then Caught(db2, inv, d.error, f)
        else
          (LogEmailSent(db2, inv.id, inv.email, LogFailed, Some(e), f.outcomeLog),
           SweepResult(inv.id, inv.email, inv.concept, ItemError, None, Some(e)))
  }

  /**
   * Whether the k-th invoice ends as a success: the snapshot is written, the gateway
   * accepts the mail, and the row is re-read, rescheduled and written back.
   */
  predicate Succeeds(inv: ScheduledInvoice, k: nat, now: Instant, env: Environment)
    requires IsValid(now.date)
  {
    && env.faults(k).history.None?
    && env.deliver(k).Delivered?
    && env.faults(k).fetch.None?
    && env.faults(k).update.None?
    && NextSendDateOf(inv.frequency, inv.dueDateDay, now.date).Success?
  }

  /**
   * The error text the k-th iteration reports, in its result and in its failure log:
   * the history insert's error; after a delivery, what `updateLastSent` throws; after a
   * refusal, the delete's error when the rollback fails and the gateway's error when it
   * succeeds. None exactly for a success.
   */
  function StepError(inv: ScheduledInvoice, k: nat, now: Instant, env: Environment): (r: Option<string>)
    requires IsValid(now.date)
    ensures r.None? <==> Succeeds(inv, k, now, env)
    ensures RolledBack(k, env) ==> r == Some(env.deliver(k).error)
  {
    var f := env.faults(k);
    if f.history.Some? then Some(HistoryError + f.history.value)
    else
      match env.deliver(k)
      case Delivered => UpdateRejection(inv, now, f.fetch, f.update)
      case DeliveryFailed(e) => if f.delete.Some? then Some(DeleteError + f.delete.value) else Some(e)
  }

  /** A row written by the sweep: the inactive, 'Pendiente' snapshot of `inv` dated now. */
  predicate SnapshotOf(row: ScheduledInvoice, inv: ScheduledInvoice, now: Instant) {
    row == HistoryRow(inv, now).(id := row.id)
  }

  /** The k-th iteration rolls its snapshot back: it was written, the gateway refused the mail and the delete went through. */
  predicate RolledBack(k: nat, env: Environment) {
    env.faults(k).history.None? && env.deliver(k).DeliveryFailed? && env.faults(k).delete.None?
  }

  /** The k-th iteration leaves its snapshot behind: it was written and not rolled back. */
  predicate Keeps(k: nat, env: Environment) {
    env.faults(k).history.None? && !RolledBack(k, env)
  }

  /**
   * The log rows the k-th iteration appends, given its result: the success log after a
   * success, otherwise the failed log carrying the result's error, from the rollback
   * path or from the catch block, unless that insert fails.
   */
  function StepLog(inv: ScheduledInvoice, x: SweepResult, k: nat, env: Environment): seq<EmailLog> {
    if x.status == ItemSuccess then
      if env.faults(k).outcomeLog then [] else [EmailLog(inv.id, inv.email, LogSuccess, None)]
    else
      var logFault := if RolledBack(k, env) then env.faults(k).outcomeLog else env.faults(k).catchLog;
      if logFault then [] else [EmailLog(inv.id, inv.email, LogFailed, ErrorColumn(x.error))]
  }

  /** The log rows appended to `before`: at most one, about invoice `id`. */
  predicate OneLogAbout(before: seq<EmailLog>, after: seq<EmailLog>, id: InvoiceId) {
    && |before| <= |after| <= |before| + 1
    && after[..|before|] == before
    && forall j | |before| <= j < |after| :: after[j].scheduledInvoiceId == id
  }

  /**
   * What one iteration does to the tables: the original row is advanced exactly when
   * the iteration succeeds and is otherwise untouched, no other stored row changes,
   * a success leaves its snapshot behind, any other new row is also a snapshot of `inv`,
   * and at most one log row about `inv` is appended, a success log only on success.
   */
  ghost predicate StepEffect(db: Db, inv: ScheduledInvoice, k: nat, db': Db, x: SweepResult, now: Instant, env: Environment)
    requires IsValid(now.date)
  {
    && x.error == StepError(inv, k, now, env)
    && (RolledBack(k, env) ==> x.error == Some(env.deliver(k).error))
    && WellFormed(db')
    && (x.status == ItemSuccess <==> Succeeds(inv, k, now, env))
    && db.nextSerial <= db'.nextSerial
    && inv.id in db'.rows
    && db'.rows[inv.id] == (if x.status == ItemSuccess then Advanced(inv, now) else inv)
    && (forall id | id in db.rows && id != inv.id :: id in db'.rows && db'.rows[id] == db.rows[id])
    && (forall id | id in db'.rows && id !in db.rows :: db.nextSerial <= id.serial && SnapshotOf(db'.rows[id], inv, now))
    && (x.status == ItemSuccess ==>
          x.historyRecordId.Some? && x.historyRecordId.value in db'.rows && x.historyRecordId.value !in db.rows)
    && (x.status == ItemError ==> x.historyRecordId.None? && x.error.Some?)
    && OneLogAbout(db.logs, db'.logs, inv.id)
    && (forall j | |db.logs| <= j < |db'.logs| :: db'.logs[j].status == LogSuccess <==> x.status == ItemSuccess)
    && (x.status == ItemSuccess && !env.faults(k).outcomeLog ==> |db'.logs| == |db.logs| + 1)
    && db'.logs == db.logs + StepLog(inv, x, k, env)
    && (env.faults(k).history.Some? ==> db'.rows == db.rows && db'.nextSerial == db.nextSerial)
    && (env.faults(k).history.None? ==> db'.nextSerial == db.nextSerial + 1)
    && (RolledBack(k, env) ==> db'.rows == db.rows)
    && (Keeps(k, env) ==> Stored(db.nextSerial) in db'.rows && Stored(db.nextSerial) !in db.rows)
    && (x.status == ItemSuccess ==> x.historyRecordId == Some(Stored(db.nextSerial)))
  }

  lemma ProcessOneEffect(db: Db, inv: ScheduledInvoice, k: nat, now: Instant, env: Environment)
    requires IsValid(now.date) && WellFormed(db)
    requires inv.id in db.rows && db.rows[inv.id] == inv
    ensures var (db', x) := ProcessOne(db, inv, k, now, env); StepEffect(db, inv, k, db', x, now, env)
  {
    if env.faults(k).history.Some? {
      HistoryFailedEffect(db, inv, k, now, env);
    } else if env.deliver(k).Delivered? {
      DeliveredEffect(db, inv, k, now, env);
    } else {
      DeliveryFailedEffect(db, inv, k, now, env);
    }
  }

  /** The snapshot could not be written: only the catch block's log row is added. */
  lemma HistoryFailedEffect(db: Db, inv: ScheduledInvoice, k: nat, now: Instant, env: Environment)
    requires IsValid(now.date) && WellFormed(db)
    requires inv.id in db.rows && db.rows[inv.id] == inv
    requires env.faults(k).history.Some?
    ensures var (db', x) := ProcessOne(db, inv, k, now, env); StepEffect(db, inv, k, db', x, now, env)
  {
    var (db1, h) := CreateInvoiceHistoryRecord(db, inv, now, env.faults(k).history);
    assert db1 == db && h.Failure?;
  }

  /** The gateway accepted the mail: the row is advanced unless the re-read or the write fails. */
  lemma DeliveredEffect(db: Db, inv: ScheduledInvoice, k: nat, now: Instant, env: Environment)
    requires IsValid(now.date) && WellFormed(db)
    requires inv.id in db.rows && db.rows[inv.id] == inv
    requires env.faults(k).history.None? && env.deliver(k).Delivered?
    ensures var (db', x) := ProcessOne(db, inv, k, now, env); StepEffect(db, inv, k, db', x, now, env)
  {
    var f := env.faults(k);
    var (db1, h) := CreateInvoiceHistoryRecord(db, inv, now, f.history);
    assert db1.rows[h.value] == HistoryRow(inv, now).(id := h.value);
    var (db2, u) := UpdateLastSent(db1, inv.id, now, f.fetch, f.update);
    if u.Pass? {
      assert db2.rows[inv.id] == Advanced(inv, now);
      SentEffect(db, inv, k, db1, h.value, db2, now, env);
    } else {
      NotAdvancedEffect(db, inv, k, db1, h.value, db2, u.error, now, env);
    }
  }

  /** The row was re-read, rescheduled and written back: a success, logged as one. */
  lemma SentEffect(db: Db, inv: ScheduledInvoice, k: nat, db1: Db, hid: InvoiceId, db2: Db, now: Instant, env: Environment)
    requires IsValid(now.date) && WellFormed(db)
    requires inv.id in db.rows && db.rows[inv.id] == inv
    requires env.faults(k).history.None? && env.deliver(k).Delivered?
    requires (db1, Success(hid)) == CreateInvoiceHistoryRecord(db, inv, now, None)
    requires db1.rows[hid] == HistoryRow(inv, now).(id := hid)
    requires (db2, Pass) == UpdateLastSent(db1, inv.id, now, env.faults(k).fetch, env.faults(k).update)
    requires db2.rows[inv.id] == Advanced(inv, now)
    ensures var (db', x) := ProcessOne(db, inv, k, now, env); StepEffect(db, inv, k, db', x, now, env)
  {
    var db' := LogEmailSent(db2, inv.id, inv.email, LogSuccess, None, env.faults(k).outcomeLog);
    var x := SweepResult(inv.id, inv.email, inv.concept, ItemSuccess, Some(hid), None);
    assert ProcessOne(db, inv, k, now, env) == (db', x);
    assert hid == Stored(db.nextSerial) && db'.nextSerial == db.nextSerial + 1;
    assert db'.rows == db.rows[hid := db1.rows[hid]][inv.id := Advanced(inv, now)];
    assert db'.logs == db.logs + StepLog(inv, x, k, env);
  }

  /** The re-read, the calculator or the write failed: the snapshot stays and the catch block logs the error. */
  lemma NotAdvancedEffect(db: Db, inv: ScheduledInvoice, k: nat, db1: Db, hid: InvoiceId, db2: Db, e: string, now: Instant, env: Environment)
    requires IsValid(now.date) && WellFormed(db)
    requires inv.id in db.rows && db.rows[inv.id] == inv
    requires env.faults(k).history.None? && env.deliver(k).Delivered?
    requires (db1, Success(hid)) == CreateInvoiceHistoryRecord(db, inv, now, None)
    requires db1.rows[hid] == HistoryRow(inv, now).(id := hid)
    requires (db2, Fail(e)) == UpdateLastSent(db1, inv.id, now, env.faults(k).fetch, env.faults(k).update)
    ensures var (db', x) := ProcessOne(db, inv, k, now, env); StepEffect(db, inv, k, db', x, now, env)
  {
  }

  /** The gateway refused the mail: the snapshot is deleted again unless the delete fails. */
  lemma DeliveryFailedEffect(db: Db, inv: ScheduledInvoice, k: nat, now: Instant, env: Environment)
    requires IsValid(now.date) && WellFormed(db)
    requires inv.id in db.rows && db.rows[inv.id] == inv
    requires env.faults(k).history.None? && env.deliver(k).DeliveryFailed?
    ensures var (db', x) := ProcessOne(db, inv, k, now, env); StepEffect(db, inv, k, db', x, now, env)
  {
    var f := env.faults(k);
    var (db1, h) := CreateInvoiceHistoryRecord(db, inv, now, f.history);
    assert db1.rows[h.value] == HistoryRow(inv, now).(id := h.value);
    var (db2, d) := DeleteInvoice(db1, h.value, f.delete);
    if f.delete.None? {
      assert db2.rows == db.rows by {
        HistoryRollbackRestoresRows(db, inv, now);
      }
      RolledBackEffect(db, inv, k, db2, now, env);
    } else {
      KeptSnapshotEffect(db, inv, k, db1, h.value, now, env);
    }
  }

  /** A rolled-back snapshot leaves the rows as they were; the gateway's error is logged unless that insert fails. */
  lemma RolledBackEffect(db: Db, inv: ScheduledInvoice, k: nat, db2: Db, now: Instant, env: Environment)
    requires IsValid(now.date) && WellFormed(db)
    requires inv.id in db.rows && db.rows[inv.id] == inv
    requires env.faults(k).history.None? && env.deliver(k).DeliveryFailed? && env.faults(k).delete.None?
    requires db2 == DeleteInvoice(CreateInvoiceHistoryRecord(db, inv, now, None).0,
                                  CreateInvoiceHistoryRecord(db, inv, now, None).1.value, None).0
    requires db2.rows == db.rows
    ensures var (db', x) := ProcessOne(db, inv, k, now, env); StepEffect(db, inv, k, db', x, now, env)
  {
  }

  /** The snapshot could not be deleted: it stays behind and the catch block logs the error. */
  lemma KeptSnapshotEffect(db: Db, inv: ScheduledInvoice, k: nat, db1: Db, hid: InvoiceId, now: Instant, env: Environment)
    requires IsValid(now.date) && WellFormed(db)
    requires inv.id in db.rows && db.rows[inv.id] == inv
    requires env.faults(k).history.None? && env.deliver(k).DeliveryFailed? && env.faults(k).delete.Some?
    requires (db1, Success(hid)) == CreateInvoiceHistoryRecord(db, inv, now, None)
    requires db1.rows[hid] == HistoryRow(inv, now).(id := hid)
    ensures var (db', x) := ProcessOne(db, inv, k, now, env); StepEffect(db, inv, k, db', x, now, env)
  {
  }

  /**
   * The loop of route.ts:34-102 as a fold over the due list: the state after the
   * first k iterations, and the results pushed so far.
   */
  function Sweep(db: Db, due: seq<ScheduledInvoice>, now: Instant, env: Environment): (r: (Db, seq<SweepResult>))
    requires IsValid(now.date)
    ensures |r.1| == |due|
    ensures forall i | 0 <= i < |due| ::
      r.1[i].id == due[i].id && r.1[i].email == due[i].email && r.1[i].concept == due[i].concept
    ensures WellFormed(db) ==> WellFormed(r.0)
    decreases |due|
  {
    if due == [] then (db, [])
    else
      var (db1, rs) := Sweep(db, due[..|due| - 1], now, env);
      var (db2, x) := ProcessOne(db1, due[|due| - 1], |due| - 1, now, env);
      (db2, rs + [x])
  }

  function Count(results: seq<SweepResult>, status: ItemStatus): (n: nat)
    ensures n <= |results|
  {
    if results == [] then 0
    else Count(results[..|results| - 1], status) + (if results[|results| - 1].status == status then 1 else 0)
  }

  /** `successful + errors == processed`: every due invoice is counted exactly once. */
  lemma {:induction false} CountsAddUp(results: seq<SweepResult>)
    ensures Count(results, ItemSuccess) + Count(results, ItemError) == |results|
  {
    if results != [] {
      CountsAddUp(results[..|results| - 1]);
    }
  }

  function IdsOf(list: seq<ScheduledInvoice>): set<InvoiceId> {
    set i | 0 <= i < |list| :: list[i].id
  }

  /** Listing one more invoice adds its id. */
  lemma IdsOfSnoc(front: seq<ScheduledInvoice>, inv: ScheduledInvoice)
    ensures IdsOf(front + [inv]) == IdsOf(front) + {inv.id}
  {
    var due := front + [inv];
    forall id | id in IdsOf(due) ensures id in IdsOf(front) + {inv.id} {
      var i :| 0 <= i < |due| && due[i].id == id;
      if i < |front| { assert front[i].id == id; }
    }
    forall id | id in IdsOf(front) + {inv.id} ensures id in IdsOf(due) {
      if id == inv.id {
        assert due[|front|].id == id;
      } else {
        var i :| 0 <= i < |front| && front[i].id == id;
        assert due[i].id == id;
      }
    }
  }

  /** The stored rows after the first k iterations: due rows advanced exactly on success, the rest unchanged. */
  ghost predicate RowsSwept(db0: Db, due: seq<ScheduledInvoice>, db: Db, results: seq<SweepResult>, now: Instant, env: Environment)
    requires IsValid(now.date)
  {
    && |results| == |due|
    && (forall id | id in db0.rows && id !in IdsOf(due) :: id in db.rows && db.rows[id] == db0.rows[id])
    && (forall i | 0 <= i < |due| ::
          && due[i].id in db.rows
          && db.rows[due[i].id] == (if results[i].status == ItemSuccess then Advanced(due[i], now) else due[i])
          && (results[i].status == ItemSuccess <==> Succeeds(due[i], i, now, env)))
  }

  /** The rows the first k iterations added: inactive 'Pendiente' snapshots dated today, one kept per success. */
  ghost predicate NewRowsSwept(db0: Db, due: seq<ScheduledInvoice>, db: Db, results: seq<SweepResult>, now: Instant) {
    && |results| == |due|
    && WellFormed(db) && db0.nextSerial <= db.nextSerial
    && (forall id | id in db.rows && id !in db0.rows ::
          db0.nextSerial <= id.serial && !db.rows[id].isActive && db.rows[id].status == Some(Pendiente)
          && db.rows[id].nextSendDate == now.date)
    && (forall i | 0 <= i < |due| && results[i].status == ItemSuccess ::
          results[i].historyRecordId.Some? && results[i].historyRecordId.value in db.rows
          && results[i].historyRecordId.value !in db0.rows)
  }

  /** The snapshot each due invoice would leave, before the insert gives it an id. */
  function Snapshots(due: seq<ScheduledInvoice>, now: Instant): (r: seq<ScheduledInvoice>)
    ensures |r| == |due|
    ensures forall i | 0 <= i < |due| :: r[i] == HistoryRow(due[i], now)
    decreases |due|
  {
    if due == [] then [] else Snapshots(due[..|due| - 1], now) + [HistoryRow(due[|due| - 1], now)]
  }

  /** Every row the first k iterations added is, but for its id, the snapshot of one of their invoices. */
  ghost predicate CopiesSwept(db0: Db, due: seq<ScheduledInvoice>, db: Db, now: Instant) {
    forall id | id in db.rows && id !in db0.rows :: db.rows[id].(id := Stored(0)) in Snapshots(due, now)
  }

  /** A row found among the `Snapshots` of a listing is the snapshot of one of its invoices. */
  lemma CopiedFrom(row: ScheduledInvoice, due: seq<ScheduledInvoice>, now: Instant)
    requires row.(id := Stored(0)) in Snapshots(due, now)
    ensures exists i | 0 <= i < |due| :: SnapshotOf(row, due[i], now)
  {
    var i :| 0 <= i < |due| && Snapshots(due, now)[i] == row.(id := Stored(0));
    assert SnapshotOf(row, due[i], now);
  }

  /** The error text of each of the first k results is the one its iteration reports. */
  ghost predicate ErrorsSwept(due: seq<ScheduledInvoice>, results: seq<SweepResult>, now: Instant, env: Environment)
    requires IsValid(now.date)
  {
    |results| == |due| && forall i | 0 <= i < |due| :: results[i].error == StepError(due[i], i, now, env)
  }

  /** The log after the first k iterations: the old rows, then rows about the due invoices. */
  ghost predicate LogsSwept(db0: Db, due: seq<ScheduledInvoice>, db: Db) {
    && |db0.logs| <= |db.logs| && db.logs[..|db0.logs|] == db0.logs
    && (forall j | |db0.logs| <= j < |db.logs| :: db.logs[j].scheduledInvoiceId in IdsOf(due))
  }

  /** How many of the first n iterations leave their snapshot behind. */
  function Kept(n: nat, env: Environment): (c: nat)
    ensures c <= n
  {
    if n == 0 then 0 else Kept(n - 1, env) + (if Keeps(n - 1, env) then 1 else 0)
  }

  /** The log rows the iterations append, in order: each one's `StepLog`. */
  function SweepLogs(due: seq<ScheduledInvoice>, results: seq<SweepResult>, env: Environment): seq<EmailLog>
    requires |results| == |due|
    decreases |due|
  {
    if due == [] then []
    else
      var n := |due| - 1;
      SweepLogs(due[..n], results[..n], env) + StepLog(due[n], results[n], n, env)
  }

  /** The rows the first k iterations added are exactly as many as the iterations that kept a snapshot. */
  ghost predicate SnapshotsSwept(db0: Db, due: seq<ScheduledInvoice>, db: Db, env: Environment) {
    |db.rows.Keys - db0.rows.Keys| == Kept(|due|, env)
  }

  /** The log after the first k iterations: the old rows, then every iteration's own log rows. */
  ghost predicate LogsRecorded(db0: Db, due: seq<ScheduledInvoice>, db: Db, results: seq<SweepResult>, env: Environment) {
    |results| == |due| && db.logs == db0.logs + SweepLogs(due, results, env)
  }

  /** The sweep's precondition: a duplicate-free list of rows, each as stored. */
  ghost predicate DueRows(db: Db, due: seq<ScheduledInvoice>) {
    WellFormed(db) && DistinctIds(due) && forall i | 0 <= i < |due| :: due[i].id in db.rows && db.rows[due[i].id] == due[i]
  }

  /** The next due invoice was not handled by the earlier iterations, so its row is still as listed. */
  lemma NextStillStored(db0: Db, front: seq<ScheduledInvoice>, inv: ScheduledInvoice, db1: Db, rs: seq<SweepResult>, now: Instant, env: Environment)
    requires IsValid(now.date) && DueRows(db0, front + [inv]) && RowsSwept(db0, front, db1, rs, now, env)
    ensures inv.id !in IdsOf(front) && inv.id in db1.rows && db1.rows[inv.id] == inv
  {
    var due := front + [inv];
    forall i | 0 <= i < |front| ensures front[i].id != inv.id {
      assert front[i] == due[i] && inv == due[|front|];
    }
    assert inv.id in db0.rows && db0.rows[inv.id] == inv by {
      assert inv == due[|front|];
    }
  }

  lemma RowsStep(db0: Db, front: seq<ScheduledInvoice>, inv: ScheduledInvoice, db1: Db, rs: seq<SweepResult>,
                 db2: Db, x: SweepResult, now: Instant, env: Environment)
    requires IsValid(now.date) && DueRows(db0, front + [inv])
    requires RowsSwept(db0, front, db1, rs, now, env) && inv.id !in IdsOf(front)
    requires StepEffect(db1, inv, |front|, db2, x, now, env)
    ensures RowsSwept(db0, front + [inv], db2, rs + [x], now, env)
  {
    UntouchedStep(db0, front, inv, db1, rs, db2, x, now, env);
    DueStep(db0, front, inv, db1, rs, db2, x, now, env);
  }

  lemma UntouchedStep(db0: Db, front: seq<ScheduledInvoice>, inv: ScheduledInvoice, db1: Db, rs: seq<SweepResult>,
                      db2: Db, x: SweepResult, now: Instant, env: Environment)
    requires IsValid(now.date)
    requires RowsSwept(db0, front, db1, rs, now, env)
    requires StepEffect(db1, inv, |front|, db2, x, now, env)
    ensures forall id | id in db0.rows && id !in IdsOf(front + [inv]) :: id in db2.rows && db2.rows[id] == db0.rows[id]
  {
    IdsOfSnoc(front, inv);
  }

  lemma DueStep(db0: Db, front: seq<ScheduledInvoice>, inv: ScheduledInvoice, db1: Db, rs: seq<SweepResult>,
                db2: Db, x: SweepResult, now: Instant, env: Environment)
    requires IsValid(now.date)
    requires RowsSwept(db0, front, db1, rs, now, env) && inv.id !in IdsOf(front)
    requires inv.id in db2.rows && db2.rows[inv.id] == (if x.status == ItemSuccess then Advanced(inv, now) else inv)
    requires x.status == ItemSuccess <==> Succeeds(inv, |front|, now, env)
    requires forall id | id in db1.rows && id != inv.id :: id in db2.rows && db2.rows[id] == db1.rows[id]
    ensures var due, results := front + [inv], rs + [x];
      forall i | 0 <= i < |due| ::
        && due[i].id in db2.rows
        && db2.rows[due[i].id] == (if results[i].status == ItemSuccess then Advanced(due[i], now) else due[i])
        && (results[i].status == ItemSuccess <==> Succeeds(due[i], i, now, env))
  {
    var due := front + [inv];
    var results := rs + [x];
    forall i | 0 <= i < |due|
      ensures due[i].id in db2.rows
      ensures db2.rows[due[i].id] == (if results[i].status == ItemSuccess then Advanced(due[i], now) else due[i])
      ensures results[i].status == ItemSuccess <==> Succeeds(due[i], i, now, env)
    {
      if i < |front| {
        assert due[i] == front[i] && results[i] == rs[i];
        assert front[i].id in IdsOf(front);
      } else {
        assert due[i] == inv && results[i] == x;
      }
    }
  }

  lemma NewRowsStep(db0: Db, front: seq<ScheduledInvoice>, inv: ScheduledInvoice, db1: Db, rs: seq<SweepResult>,
                    db2: Db, x: SweepResult, now: Instant, env: Environment)
    requires IsValid(now.date) && WellFormed(db0) && inv.id in db0.rows
    requires NewRowsSwept(db0, front, db1, rs, now) && inv.id in db1.rows
    requires StepEffect(db1, inv, |front|, db2, x, now, env)
    ensures NewRowsSwept(db0, front + [inv], db2, rs + [x], now)
  {
    var due := front + [inv];
    var results := rs + [x];
    forall i | 0 <= i < |due| && results[i].status == ItemSuccess
      ensures results[i].historyRecordId.Some? && results[i].historyRecordId.value in db2.rows
      ensures results[i].historyRecordId.value !in db0.rows
    {
      if i < |front| {
        assert results[i] == rs[i];
        var hid := rs[i].historyRecordId.value;
        assert hid in db1.rows && hid.serial < db1.nextSerial;
        assert hid != inv.id;
      } else {
        assert results[i] == x;
      }
    }
  }

  lemma LogsStep(db0: Db, front: seq<ScheduledInvoice>, inv: ScheduledInvoice, db1: Db, rs: seq<SweepResult>,
                 db2: Db, x: SweepResult, now: Instant, env: Environment)
    requires IsValid(now.date) && LogsSwept(db0, front, db1)
    requires StepEffect(db1, inv, |front|, db2, x, now, env)
    ensures LogsSwept(db0, front + [inv], db2)
  {
    IdsOfSnoc(front, inv);
    assert db2.logs[..|db0.logs|] == db0.logs by {
      assert db2.logs[..|db1.logs|] == db1.logs;
      assert db1.logs[..|db0.logs|] == db0.logs;
    }
  }

  /** The keys one iteration leaves: all old ones, plus the next serial exactly when it keeps its snapshot. */
  ghost predicate KeysGrow(db1: Db, db2: Db, gains: bool) {
    && db1.rows.Keys <= db2.rows.Keys
    && (forall id | id in db2.rows && id !in db1.rows :: id == Stored(db1.nextSerial) && gains)
    && (gains ==> Stored(db1.nextSerial) in db2.rows && Stored(db1.nextSerial) !in db1.rows)
  }

  lemma StepKeys(db1: Db, inv: ScheduledInvoice, k: nat, db2: Db, x: SweepResult, now: Instant, env: Environment)
    requires IsValid(now.date) && StepEffect(db1, inv, k, db2, x, now, env) && inv.id in db1.rows
    ensures KeysGrow(db1, db2, Keeps(k, env))
  {
    if Keeps(k, env) {
      forall id | id in db2.rows && id !in db1.rows ensures id == Stored(db1.nextSerial) {
        assert db1.nextSerial <= id.serial < db2.nextSerial;
      }
    }
  }

  /** One more iteration adds one new row exactly when it keeps its snapshot. */
  lemma SnapshotsStep(db0: Db, front: seq<ScheduledInvoice>, db1: Db, db2: Db, env: Environment)
    requires WellFormed(db0) && db0.nextSerial <= db1.nextSerial
    requires SnapshotsSwept(db0, front, db1, env)
    requires KeysGrow(db1, db2, Keeps(|front|, env))
    ensures |db2.rows.Keys - db0.rows.Keys| == Kept(|front| + 1, env)
  {
    AddedKeys(db0.rows.Keys, db1.rows.Keys, db2.rows.Keys, Stored(db1.nextSerial), Keeps(|front|, env));
  }

  /** One more iteration adds only a snapshot of its own invoice and keeps the earlier ones. */
  lemma CopiesStep(db0: Db, front: seq<ScheduledInvoice>, inv: ScheduledInvoice, db1: Db, db2: Db, now: Instant)
    requires CopiesSwept(db0, front, db1, now) && inv.id in db0.rows
    requires forall id | id in db1.rows && id != inv.id :: id in db2.rows && db2.rows[id] == db1.rows[id]
    requires forall id | id in db2.rows && id !in db1.rows :: SnapshotOf(db2.rows[id], inv, now)
    ensures CopiesSwept(db0, front + [inv], db2, now)
  {
    assert (front + [inv])[..|front|] == front;
    assert Snapshots(front + [inv], now) == Snapshots(front, now) + [HistoryRow(inv, now)];
  }

  lemma ErrorsStep(front: seq<ScheduledInvoice>, inv: ScheduledInvoice, rs: seq<SweepResult>, x: SweepResult, now: Instant, env: Environment)
    requires IsValid(now.date) && ErrorsSwept(front, rs, now, env)
    requires x.error == StepError(inv, |front|, now, env)
    ensures ErrorsSwept(front + [inv], rs + [x], now, env)
  {
    var due, results := front + [inv], rs + [x];
    forall i | 0 <= i < |due| ensures results[i].error == StepError(due[i], i, now, env) {
      if i < |front| {
        assert due[i] == front[i] && results[i] == rs[i];
      }
    }
  }

  /** A set that keeps its elements and gains at most one fresh one grows by that one. */
  lemma AddedKeys<T>(old0: set<T>, before: set<T>, after: set<T>, x: T, gains: bool)
    requires before <= after
    requires forall y | y in after && y !in before :: y == x && gains
    requires gains ==> x in after && x !in before && x !in old0
    ensures |after - old0| == |before - old0| + (if gains then 1 else 0)
  {
    if gains {
      assert after - old0 == (before - old0) + {x};
    } else {
      assert after - old0 == before - old0;
    }
  }

  /** One more iteration appends its own log rows. */
  lemma LogsRecordedStep(db0: Db, front: seq<ScheduledInvoice>, inv: ScheduledInvoice, db1: Db, rs: seq<SweepResult>,
                         db2: Db, x: SweepResult, now: Instant, env: Environment)
    requires IsValid(now.date) && LogsRecorded(db0, front, db1, rs, env)
    requires StepEffect(db1, inv, |front|, db2, x, now, env)
    ensures LogsRecorded(db0, front + [inv], db2, rs + [x], env)
  {
    var due, results := front + [inv], rs + [x];
    assert due[..|front|] == front && results[..|front|] == rs;
    assert SweepLogs(due, results, env) == SweepLogs(front, rs, env) + StepLog(inv, x, |front|, env);
  }

  /** The fold takes one more step for one more due invoice. */
  lemma SweepSnoc(db: Db, front: seq<ScheduledInvoice>, inv: ScheduledInvoice, now: Instant, env: Environment)
    requires IsValid(now.date)
    ensures var (db1, rs) := Sweep(db, front, now, env);
      var (db2, x) := ProcessOne(db1, inv, |front|, now, env);
      Sweep(db, front + [inv], now, env) == (db2, rs + [x])
  {
    assert (front + [inv])[..|front|] == front;
  }

  /**
   * The sweep over a listing of due rows (distinct, each as stored): every due invoice
   * is advanced exactly when its iteration succeeds and otherwise left as it was, no
   * other stored row changes, every row it adds is an inactive 'Pendiente' snapshot of
   * a due invoice dated today, as many as the iterations that keep theirs, each
   * success keeps its snapshot, the log gains exactly each iteration's row in order,
   * and each result carries the error text its iteration reports.
   */
  lemma SweepOutcome(db: Db, due: seq<ScheduledInvoice>, now: Instant, env: Environment)
    requires IsValid(now.date) && DueRows(db, due)
    ensures var (db', results) := Sweep(db, due, now, env);
      && RowsSwept(db, due, db', results, now, env)
      && NewRowsSwept(db, due, db', results, now)
      && SnapshotsSwept(db, due, db', env)
      && LogsSwept(db, due, db')
      && LogsRecorded(db, due, db', results, env)
      && CopiesSwept(db, due, db', now)
      && ErrorsSwept(due, results, now, env)
  {
    SweepRowsOutcome(db, due, now, env);
    SweepLogsOutcome(db, due, now, env);
  }

  /** The row half of `SweepOutcome`, by induction on the listing. */
  lemma {:induction false} SweepRowsOutcome(db: Db, due: seq<ScheduledInvoice>, now: Instant, env: Environment)
    requires IsValid(now.date) && DueRows(db, due)
    ensures var (db', results) := Sweep(db, due, now, env);
      && RowsSwept(db, due, db', results, now, env)
      && NewRowsSwept(db, due, db', results, now)
      && SnapshotsSwept(db, due, db', env)
      && CopiesSwept(db, due, db', now)
    decreases |due|
  {
    if due != [] {
      var n := |due| - 1;
      var front, inv := due[..n], due[n];
      assert due == front + [inv];
      assert DueRows(db, front);
      SweepRowsOutcome(db, front, now, env);
      var (db1, rs) := Sweep(db, front, now, env);
      var (db2, x) := ProcessOne(db1, inv, n, now, env);
      SweepSnoc(db, front, inv, now, env);
      RowsOutcomeStep(db, front, inv, db1, rs, db2, x, now, env);
    }
  }

  /** The log and error half of `SweepOutcome`, by induction on the listing. */
  lemma {:induction false} SweepLogsOutcome(db: Db, due: seq<ScheduledInvoice>, now: Instant, env: Environment)
    requires IsValid(now.date) && DueRows(db, due)
    ensures var (db', results) := Sweep(db, due, now, env);
      && LogsSwept(db, due, db')
      && LogsRecorded(db, due, db', results, env)
      && ErrorsSwept(due, results, now, env)
    decreases |due|
  {
    if due != [] {
      var n := |due| - 1;
      var front, inv := due[..n], due[n];
      assert due == front + [inv];
      assert DueRows(db, front);
      SweepLogsOutcome(db, front, now, env);
      SweepRowsOutcome(db, front, now, env);
      var (db1, rs) := Sweep(db, front, now, env);
      var (db2, x) := ProcessOne(db1, inv, n, now, env);
      SweepSnoc(db, front, inv, now, env);
      LogsOutcomeStep(db, front, inv, db1, rs, db2, x, now, env);
    }
  }

  /** One more iteration keeps the row half of the invariant of `SweepOutcome`. */
  lemma RowsOutcomeStep(db0: Db, front: seq<ScheduledInvoice>, inv: ScheduledInvoice, db1: Db, rs: seq<SweepResult>,
                        db2: Db, x: SweepResult, now: Instant, env: Environment)
    requires IsValid(now.date) && DueRows(db0, front + [inv])
    requires RowsSwept(db0, front, db1, rs, now, env) && NewRowsSwept(db0, front, db1, rs, now)
    requires SnapshotsSwept(db0, front, db1, env) && CopiesSwept(db0, front, db1, now)
    requires (db2, x) == ProcessOne(db1, inv, |front|, now, env)
    ensures RowsSwept(db0, front + [inv], db2, rs + [x], now, env)
    ensures NewRowsSwept(db0, front + [inv], db2, rs + [x], now)
    ensures SnapshotsSwept(db0, front + [inv], db2, env)
    ensures CopiesSwept(db0, front + [inv], db2, now)
  {
    NextStillStored(db0, front, inv, db1, rs, now, env);
    ProcessOneEffect(db1, inv, |front|, now, env);
    RowsEffectStep(db0, front, inv, db1, rs, db2, x, now, env);
  }

  /** `RowsOutcomeStep` from what the iteration does, without its definition. */
  lemma RowsEffectStep(db0: Db, front: seq<ScheduledInvoice>, inv: ScheduledInvoice, db1: Db, rs: seq<SweepResult>,
                       db2: Db, x: SweepResult, now: Instant, env: Environment)
    requires IsValid(now.date) && DueRows(db0, front + [inv])
    requires inv.id !in IdsOf(front) && inv.id in db1.rows
    requires RowsSwept(db0, front, db1, rs, now, env) && NewRowsSwept(db0, front, db1, rs, now)
    requires SnapshotsSwept(db0, front, db1, env) && CopiesSwept(db0, front, db1, now)
    requires StepEffect(db1, inv, |front|, db2, x, now, env)
    ensures RowsSwept(db0, front + [inv], db2, rs + [x], now, env)
    ensures NewRowsSwept(db0, front + [inv], db2, rs + [x], now)
    ensures SnapshotsSwept(db0, front + [inv], db2, env)
    ensures CopiesSwept(db0, front + [inv], db2, now)
  {
    var n := |front|;
    assert inv.id in db0.rows by {
      assert inv == (front + [inv])[n];
    }
    RowsStep(db0, front, inv, db1, rs, db2, x, now, env);
    NewRowsStep(db0, front, inv, db1, rs, db2, x, now, env);
    StepKeys(db1, inv, n, db2, x, now, env);
    SnapshotsStep(db0, front, db1, db2, env);
    CopiesStep(db0, front, inv, db1, db2, now);
  }

  /** One more iteration keeps the log and error half of the invariant of `SweepOutcome`. */
  lemma LogsOutcomeStep(db0: Db, front: seq<ScheduledInvoice>, inv: ScheduledInvoice, db1: Db, rs: seq<SweepResult>,
                        db2: Db, x: SweepResult, now: Instant, env: Environment)
    requires IsValid(now.date) && DueRows(db0, front + [inv]) && RowsSwept(db0, front, db1, rs, now, env) && WellFormed(db1)
    requires LogsSwept(db0, front, db1) && LogsRecorded(db0, front, db1, rs, env) && ErrorsSwept(front, rs, now, env)
    requires (db2, x) == ProcessOne(db1, inv, |front|, now, env)
    ensures LogsSwept(db0, front + [inv], db2)
    ensures LogsRecorded(db0, front + [inv], db2, rs + [x], env)
    ensures ErrorsSwept(front + [inv], rs + [x], now, env)
  {
    NextStillStored(db0, front, inv, db1, rs, now, env);
    ProcessOneEffect(db1, inv, |front|, now, env);
    LogsEffectStep(db0, front, inv, db1, rs, db2, x, now, env);
  }

  /** `LogsOutcomeStep` from what the iteration does, without its definition. */
  lemma LogsEffectStep(db0: Db, front: seq<ScheduledInvoice>, inv: ScheduledInvoice, db1: Db, rs: seq<SweepResult>,
                       db2: Db, x: SweepResult, now: Instant, env: Environment)
    requires IsValid(now.date)
    requires LogsSwept(db0, front, db1) && LogsRecorded(db0, front, db1, rs, env) && ErrorsSwept(front, rs, now, env)
    requires StepEffect(db1, inv, |front|, db2, x, now, env)
    ensures LogsSwept(db0, front + [inv], db2)
    ensures LogsRecorded(db0, front + [inv], db2, rs + [x], env)
    ensures ErrorsSwept(front + [inv], rs + [x], now, env)
  {
    LogsStep(db0, front, inv, db1, rs, db2, x, now, env);
    LogsRecordedStep(db0, front, inv, db1, rs, db2, x, now, env);
    ErrorsStep(front, inv, rs, x, now, env);
  }

  /**
   * When nothing fails and every due invoice has a day the schedule endpoint admits,
   * nothing is due any more after the sweep: running the cron twice on one day sends
   * each invoice once.
   */
  lemma CleanSweepClearsDue(db: Db, due: seq<ScheduledInvoice>, now: Instant, env: Environment)
    requires IsValid(now.date) && WellFormed(db) && IsListing(db.rows, Some(now.date), due)
    requires forall k: nat :: env.deliver(k) == Delivered && env.faults(k) == NoFaults
    requires forall id | id in db.rows ::
      db.rows[id].dueDateDay.Some? && (db.rows[id].frequency == Monthly ==> 1 <= db.rows[id].dueDateDay.value <= 31)
    ensures var (db', results) := Sweep(db, due, now, env);
      && (forall i | 0 <= i < |results| :: results[i].status == ItemSuccess)
      && (forall id | id in db'.rows :: !Selected(db'.rows[id], Some(now.date)))
  {
    var (db', results) := Sweep(db, due, now, env);
    SweepOutcome(db, due, now, env);
    CleanRowsLeaveDue(db, due, db', results, now, env);
  }

  /** The row-level half of `CleanSweepClearsDue`, from what `SweepOutcome` says about the rows. */
  lemma CleanRowsLeaveDue(db: Db, due: seq<ScheduledInvoice>, db': Db, results: seq<SweepResult>, now: Instant, env: Environment)
    requires IsValid(now.date) && WellFormed(db) && IsListing(db.rows, Some(now.date), due)
    requires forall k: nat :: env.deliver(k) == Delivered && env.faults(k) == NoFaults
    requires forall id | id in db.rows ::
      db.rows[id].dueDateDay.Some? && (db.rows[id].frequency == Monthly ==> 1 <= db.rows[id].dueDateDay.value <= 31)
    requires RowsSwept(db, due, db', results, now, env) && NewRowsSwept(db, due, db', results, now)
    ensures forall i | 0 <= i < |results| :: results[i].status == ItemSuccess
    ensures forall id | id in db'.rows :: !Selected(db'.rows[id], Some(now.date))
  {
    forall i | 0 <= i < |due| ensures results[i].status == ItemSuccess && !Selected(db'.rows[due[i].id], Some(now.date)) {
      NextSendDateIsLater(due[i].frequency, due[i].dueDateDay.value, now.date);
      AdvancedLeavesDue(due[i], now);
    }
    forall id | id in db'.rows ensures !Selected(db'.rows[id], Some(now.date)) {
      if id in IdsOf(due) {
        var i :| 0 <= i < |due| && due[i].id == id;
      } else if id in db.rows {
        assert db.rows[id] !in due;
      }
    }
  }

  const DueQueryError: string := "Error obteniendo facturas vencidas: "

  /** The response and final state of one call of the endpoint, given the due listing the query returned. */
  ghost predicate Handled(db0: Db, db: Db, resp: Response, due: seq<ScheduledInvoice>,
                          authHeader: Option<string>, cronSecret: Option<string>, now: Instant, env: Environment)
    requires IsValid(now.date)
  {
    if !Authorized(authHeader, cronSecret) then resp == Unauthorized && db == db0
    else if env.queryFault.Some? then resp == ServerError(DueQueryError + env.queryFault.value) && db == db0
    else
      && IsListing(db0.rows, Some(now.date), due)
      && (if due == [] then resp == NothingDue && db == db0
          else
            var (db', results) := Sweep(db0, due, now, env);
            && db == db'
            && resp == Completed(|due|, Count(results, ItemSuccess), Count(results, ItemError), results))
  }

  /** One pass of the `for` loop (route.ts:35-101) on the store. */
  method ProcessInvoice(store: Store.InvoiceStore, inv: ScheduledInvoice, k: nat, now: Instant, env: Environment)
    returns (item: SweepResult)
    requires store.Valid() && IsValid(now.date)
    modifies store
    ensures store.Valid()
    ensures (store.State(), item) == ProcessOne(old(store.State()), inv, k, now, env)
  {
    var f := env.faults(k);
    var h := store.CreateInvoiceHistoryRecord(inv, now, f.history);
    if h.Failure? {
      store.LogEmailSent(inv.id, inv.email, LogFailed, Some(h.error), f.catchLog);
      return SweepResult(inv.id, inv.email, inv.concept, ItemError, None, Some(h.error));
    }
    var delivery := env.deliver(k);
    if delivery.Delivered? {
      var u := store.UpdateLastSent(inv.id, now, f.fetch, f.update);
      if u.Fail? {
        store.LogEmailSent(inv.id, inv.email, LogFailed, Some(u.error), f.catchLog);
        return SweepResult(inv.id, inv.email, inv.concept, ItemError, None, Some(u.error));
      }
      store.LogEmailSent(inv.id, inv.email, LogSuccess, None, f.outcomeLog);
      item := SweepResult(inv.id, inv.email, inv.concept, ItemSuccess, Some(h.value), None);
    } else {
      var d := store.DeleteInvoice(h.value, f.delete);
      if d.Fail? {
        store.LogEmailSent(inv.id, inv.email, LogFailed, Some(d.error), f.catchLog);
        return SweepResult(inv.id, inv.email, inv.concept, ItemError, None, Some(d.error));
      }
      store.LogEmailSent(inv.id, inv.email, LogFailed, Some(delivery.error), f.outcomeLog);
      item := SweepResult(inv.id, inv.email, inv.concept, ItemError, None, Some(delivery.error));
    }
  }

  /** One more iteration of the loop is one more step of the fold. */
  lemma SweepStep(db0: Db, due: seq<ScheduledInvoice>, k: nat, db1: Db, rs: seq<SweepResult>, db2: Db, x: SweepResult,
                  now: Instant, env: Environment)
    requires IsValid(now.date) && k < |due|
    requires (db1, rs) == Sweep(db0, due[..k], now, env)
    requires (db2, x) == ProcessOne(db1, due[k], k, now, env)
    ensures (db2, rs + [x]) == Sweep(db0, due[..k + 1], now, env)
  {
    var front := due[..k];
    assert due[..k + 1] == front + [due[k]];
    SweepSnoc(db0, front, due[k], now, env);
  }

  lemma CountSnoc(results: seq<SweepResult>, x: SweepResult)
    ensures Count(results + [x], ItemSuccess) == Count(results, ItemSuccess) + (if x.status == ItemSuccess then 1 else 0)
    ensures Count(results + [x], ItemError) == Count(results, ItemError) + (if x.status == ItemError then 1 else 0)
  {
    assert (results + [x])[..|results|] == results;
  }

  /** The `for` loop of route.ts:34-102 with its two counters. */
  method ProcessAll(store: Store.InvoiceStore, invoicesDue: seq<ScheduledInvoice>, now: Instant, env: Environment)
    returns (results: seq<SweepResult>, successCount: nat, errorCount: nat)
    requires store.Valid() && IsValid(now.date)
    modifies store
    ensures store.Valid()
    ensures (store.State(), results) == Sweep(old(store.State()), invoicesDue, now, env)
    ensures successCount == Count(results, ItemSuccess) && errorCount == Count(results, ItemError)
  {
    ghost var db0 := store.State();
    successCount, errorCount := 0, 0;
    results := [];
    var k := 0;
    while k < |invoicesDue|
      invariant 0 <= k <= |invoicesDue|
      invariant store.Valid()
      invariant (store.State(), results) == Sweep(db0, invoicesDue[..k], now, env)
      invariant successCount == Count(results, ItemSuccess) && errorCount == Count(results, ItemError)
    {
      ghost var dbBefore := store.State();
      var item := ProcessInvoice(store, invoicesDue[k], k, now, env);
      if item.status == ItemSuccess {
        successCount := successCount + 1;
      } else {
        errorCount := errorCount + 1;
      }
      SweepStep(db0, invoicesDue, k, dbBefore, results, store.State(), item, now, env);
      CountSnoc(results, item);
      results := results + [item];
      k := k + 1;
    }
    assert invoicesDue[..k] == invoicesDue;
  }

  /** `GET` (route.ts:5-125). */
  method Get(store: Store.InvoiceStore, authHeader: Option<string>, cronSecret: Option<string>, now: Instant, env: Environment)
    returns (resp: Response, ghost due: seq<ScheduledInvoice>)
    requires store.Valid() && IsValid(now.date)
    modifies store
    ensures store.Valid()
    ensures Handled(old(store.State()), store.State(), resp, due, authHeader, cronSecret, now, env)
  {
    due := [];
    if authHeader != Some("Bearer " + cronSecret.GetOr("undefined")) {
      return Unauthorized, due;
    }
    var listing := store.GetInvoicesDueToday(now.date, env.queryFault);
    if listing.Failure? {
      return ServerError(listing.error), due;
    }
    var invoicesDue := listing.value;
    due := invoicesDue;
    if |invoicesDue| == 0 {
      return NothingDue, due;
    }
    var results, successCount, errorCount := ProcessAll(store, invoicesDue, now, env);
    resp := Completed(|invoicesDue|, successCount, errorCount, results);
  }

  /** `POST` (route.ts:128-130) answers exactly as `GET`. */
  method Post(store: Store.InvoiceStore, authHeader: Option<string>, cronSecret: Option<string>, now: Instant, env: Environment)
    returns (resp: Response, ghost due: seq<ScheduledInvoice>)
    requires store.Valid() && IsValid(now.date)
    modifies store
    ensures store.Valid()
    ensures Handled(old(store.State()), store.State(), resp, due, authHeader, cronSecret, now, env)
  {
    resp, due := Get(store, authHeader, cronSecret, now, env);
  }
}
