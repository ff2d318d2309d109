/**
 * The in-process scheduler (lib/scheduler.ts): a `SchedulerService` object that owns
 * its timer handles and a running flag, and a sweep that, unlike the cron endpoint,
 * writes no history snapshot and keeps no per-invoice results.
 */
module Scheduler {
  import opened Wrappers
  import opened Calendar
  import opened Records
  import opened StoreOps
  import CronSweep
  import Store

  /** The handle `setInterval` returns. */
  type TimerHandle = nat

  /**
   * Whether the k-th due invoice is rescheduled: the gateway accepts the mail and the
   * row is re-read, rescheduled and written back.
   */
  predicate LegacySucceeds(inv: ScheduledInvoice, k: nat, now: Instant, env: Environment)
    requires IsValid(now.date)
  {
    && env.deliver(k).Delivered?
    && env.faults(k).fetch.None?
    && env.faults(k).update.None?
    && NextSendDateOf(inv.frequency, inv.dueDateDay, now.date).Success?
  }

  /** The body of the `for` loop of scheduler.ts:68-101 for the k-th due invoice. */
  function LegacyProcessOne(db: Db, inv: ScheduledInvoice, k: nat, now: Instant, env: Environment): (r: Db)
    requires IsValid(now.date)
    ensures WellFormed(db) ==> WellFormed(r)
  {
    var f := env.faults(k);
    match env.deliver(k)
    case Delivered =>
      var (db1, u) := UpdateLastSent(db, inv.id, now, f.fetch, f.update);
      if u.Fail? then LogEmailSent(db1, inv.id, inv.email, LogFailed, Some(u.error), f.catchLog)
      else LogEmailSent(db1, inv.id, inv.email, LogSuccess, None, f.outcomeLog)
    case DeliveryFailed(e) =>
      LogEmailSent(db, inv.id, inv.email, LogFailed, Some(e), f.outcomeLog)
  }

  /**
   * The log row the k-th iteration appends, unless that insert fails: a success; the
   * gateway's `result.error` when it refuses the mail; the message `updateLastSent`
   * throws, recorded by the catch block, when the re-read, the calculator or the write fails.
   */
  function LegacyStepLog(inv: ScheduledInvoice, k: nat, now: Instant, env: Environment): (r: seq<EmailLog>)
    requires IsValid(now.date)
    ensures |r| <= 1
    ensures forall j | 0 <= j < |r| :: r[j].scheduledInvoiceId == inv.id && r[j].email == inv.email
    ensures forall j | 0 <= j < |r| :: r[j].status == LogSuccess <==> LegacySucceeds(inv, k, now, env)
  {
    var f := env.faults(k);
    match env.deliver(k)
    case DeliveryFailed(e) =>
      if f.outcomeLog then [] else [EmailLog(inv.id, inv.email, LogFailed, ErrorColumn(Some(e)))]
    case Delivered =>
      match UpdateRejection(inv, now, f.fetch, f.update)
      case Some(message) => if f.catchLog then [] else [EmailLog(inv.id, inv.email, LogFailed, ErrorColumn(Some(message)))]
      case None => if f.outcomeLog then [] else [EmailLog(inv.id, inv.email, LogSuccess, None)]
  }

  /**
   * What one iteration does: the row is advanced exactly when it succeeds and is
   * otherwise untouched, no row is added or removed, and exactly its `LegacyStepLog`
   * is appended to the log.
   */
  ghost predicate LegacyStepEffect(db: Db, inv: ScheduledInvoice, k: nat, db': Db, now: Instant, env: Environment)
    requires IsValid(now.date)
  {
    && WellFormed(db')
    && db'.nextSerial == db.nextSerial
    && db'.rows.Keys == db.rows.Keys
    && inv.id in db'.rows
    && db'.rows[inv.id] == (if LegacySucceeds(inv, k, now, env) then Advanced(inv, now) else inv)
    && (forall id | id in db.rows && id != inv.id :: db'.rows[id] == db.rows[id])
    && CronSweep.OneLogAbout(db.logs, db'.logs, inv.id)
    && (forall j | |db.logs| <= j < |db'.logs| :: db'.logs[j].status == LogSuccess <==> LegacySucceeds(inv, k, now, env))
    && (LegacySucceeds(inv, k, now, env) && !env.faults(k).outcomeLog ==> |db'.logs| == |db.logs| + 1)
    && db'.logs == db.logs + LegacyStepLog(inv, k, now, env)
  }

  lemma LegacyProcessOneEffect(db: Db, inv: ScheduledInvoice, k: nat, now: Instant, env: Environment)
    requires IsValid(now.date) && WellFormed(db)
    requires inv.id in db.rows && db.rows[inv.id] == inv
    ensures LegacyStepEffect(db, inv, k, LegacyProcessOne(db, inv, k, now, env), now, env)
  {
    var f := env.faults(k);
    if env.deliver(k).Delivered? {
      var (db1, u) := UpdateLastSent(db, inv.id, now, f.fetch, f.update);
      if u.Pass? {
        assert db1.rows[inv.id] == Advanced(inv, now);
      }
    }
  }

  /**
   * On the same invoice, the cron endpoint and the scheduler leave the original row
   * in the same state whenever the cron's history snapshot is written.
   */
  lemma CronAgreesWithLegacy(db: Db, inv: ScheduledInvoice, k: nat, now: Instant, env: Environment)
    requires IsValid(now.date) && WellFormed(db)
    requires inv.id in db.rows && db.rows[inv.id] == inv
    requires env.faults(k).history.None?
    ensures var cron := CronSweep.ProcessOne(db, inv, k, now, env).0;
      inv.id in cron.rows && cron.rows[inv.id] == LegacyProcessOne(db, inv, k, now, env).rows[inv.id]
  {
    CronSweep.ProcessOneEffect(db, inv, k, now, env);
    LegacyProcessOneEffect(db, inv, k, now, env);
  }

  /** The loop of scheduler.ts:68-101 as a fold over the due list. */
  function LegacySweep(db: Db, due: seq<ScheduledInvoice>, now: Instant, env: Environment): (r: Db)
    requires IsValid(now.date)
    ensures WellFormed(db) ==> WellFormed(r)
    decreases |due|
  {
    if due == [] then db
    else LegacyProcessOne(LegacySweep(db, due[..|due| - 1], now, env), due[|due| - 1], |due| - 1, now, env)
  }

  /** The tables after the first k iterations, relative to the state before the loop. */
  ghost predicate LegacySwept(db0: Db, due: seq<ScheduledInvoice>, db: Db, now: Instant, env: Environment)
    requires IsValid(now.date)
  {
    && WellFormed(db)
    && db.nextSerial == db0.nextSerial
    && db.rows.Keys == db0.rows.Keys
    && (forall id | id in db0.rows && id !in CronSweep.IdsOf(due) :: db.rows[id] == db0.rows[id])
    && (forall i | 0 <= i < |due| ::
          due[i].id in db.rows && db.rows[due[i].id] == (if LegacySucceeds(due[i], i, now, env) then Advanced(due[i], now) else due[i]))
    && CronSweep.LogsSwept(db0, due, db)
  }

  lemma LegacyUntouchedStep(db0: Db, front: seq<ScheduledInvoice>, inv: ScheduledInvoice, db1: Db, db2: Db, now: Instant, env: Environment)
    requires IsValid(now.date)
    requires LegacySwept(db0, front, db1, now, env)
    requires LegacyStepEffect(db1, inv, |front|, db2, now, env)
    ensures forall id | id in db0.rows && id !in CronSweep.IdsOf(front + [inv]) :: db2.rows[id] == db0.rows[id]
  {
    CronSweep.IdsOfSnoc(front, inv);
  }

  lemma LegacyDueStep(db0: Db, front: seq<ScheduledInvoice>, inv: ScheduledInvoice, db1: Db, db2: Db, now: Instant, env: Environment)
    requires IsValid(now.date)
    requires LegacySwept(db0, front, db1, now, env) && inv.id !in CronSweep.IdsOf(front)
    requires inv.id in db2.rows && db2.rows[inv.id] == (if LegacySucceeds(inv, |front|, now, env) then Advanced(inv, now) else inv)
    requires db2.rows.Keys == db1.rows.Keys
    requires forall id | id in db1.rows && id != inv.id :: db2.rows[id] == db1.rows[id]
    ensures var due := front + [inv];
      forall i | 0 <= i < |due| ::
        due[i].id in db2.rows && db2.rows[due[i].id] == (if LegacySucceeds(due[i], i, now, env) then Advanced(due[i], now) else due[i])
  {
    var due := front + [inv];
    forall i | 0 <= i < |due|
      ensures due[i].id in db2.rows && db2.rows[due[i].id] == (if LegacySucceeds(due[i], i, now, env) then Advanced(due[i], now) else due[i])
    {
      if i < |front| {
        assert due[i] == front[i];
        assert front[i].id in CronSweep.IdsOf(front);
      } else {
        assert due[i] == inv;
      }
    }
  }

  lemma LegacyLogsStep(db0: Db, front: seq<ScheduledInvoice>, inv: ScheduledInvoice, db1: Db, db2: Db, now: Instant, env: Environment)
    requires IsValid(now.date) && CronSweep.LogsSwept(db0, front, db1)
    requires LegacyStepEffect(db1, inv, |front|, db2, now, env)
    ensures CronSweep.LogsSwept(db0, front + [inv], db2)
  {
    CronSweep.IdsOfSnoc(front, inv);
    assert db2.logs[..|db0.logs|] == db0.logs by {
      assert db2.logs[..|db1.logs|] == db1.logs;
      assert db1.logs[..|db0.logs|] == db0.logs;
    }
  }

  /** The next due invoice was not handled by the earlier iterations, so its row is still as listed. */
  lemma LegacyNextStillStored(db0: Db, front: seq<ScheduledInvoice>, inv: ScheduledInvoice, db1: Db, now: Instant, env: Environment)
    requires IsValid(now.date) && CronSweep.DueRows(db0, front + [inv]) && LegacySwept(db0, front, db1, now, env)
    ensures inv.id !in CronSweep.IdsOf(front) && inv.id in db1.rows && db1.rows[inv.id] == inv
  {
    var due := front + [inv];
    forall i | 0 <= i < |front| ensures front[i].id != inv.id {
      assert front[i] == due[i] && inv == due[|front|];
    }
    assert inv.id in db0.rows && db0.rows[inv.id] == inv by {
      assert inv == due[|front|];
    }
  }

  lemma LegacyStep(db0: Db, front: seq<ScheduledInvoice>, inv: ScheduledInvoice, db1: Db, db2: Db, now: Instant, env: Environment)
    requires IsValid(now.date) && CronSweep.DueRows(db0, front + [inv])
    requires LegacySwept(db0, front, db1, now, env) && inv.id !in CronSweep.IdsOf(front)
    requires LegacyStepEffect(db1, inv, |front|, db2, now, env)
    ensures LegacySwept(db0, front + [inv], db2, now, env)
  {
    LegacyUntouchedStep(db0, front, inv, db1, db2, now, env);
    LegacyDueStep(db0, front, inv, db1, db2, now, env);
    LegacyLogsStep(db0, front, inv, db1, db2, now, env);
  }

  /** The log rows the first iterations append, in order: each one's `LegacyStepLog`. */
  function LegacySweepLogs(due: seq<ScheduledInvoice>, now: Instant, env: Environment): seq<EmailLog>
    requires IsValid(now.date)
    decreases |due|
  {
    if due == [] then []
    else LegacySweepLogs(due[..|due| - 1], now, env) + LegacyStepLog(due[|due| - 1], |due| - 1, now, env)
  }

  lemma LegacyLogsRecordedStep(db0: Db, front: seq<ScheduledInvoice>, inv: ScheduledInvoice, db1: Db, db2: Db, now: Instant, env: Environment)
    requires IsValid(now.date) && db1.logs == db0.logs + LegacySweepLogs(front, now, env)
    requires db2.logs == db1.logs + LegacyStepLog(inv, |front|, now, env)
    ensures db2.logs == db0.logs + LegacySweepLogs(front + [inv], now, env)
  {
    assert (front + [inv])[..|front|] == front;
  }

  /**
   * The scheduler's sweep over a listing of due rows: each due invoice is advanced
   * exactly when its iteration succeeds, no other row changes, no row is added
   * (a failed delivery leaves only a log row), and the log only grows, with rows
   * about the due invoices: exactly their `LegacyStepLog` rows, in the order of the listing.
   */
  lemma {:induction false} LegacySweepOutcome(db: Db, due: seq<ScheduledInvoice>, now: Instant, env: Environment)
    requires IsValid(now.date) && CronSweep.DueRows(db, due)
    ensures LegacySwept(db, due, LegacySweep(db, due, now, env), now, env)
    ensures LegacySweep(db, due, now, env).logs == db.logs + LegacySweepLogs(due, now, env)
    decreases |due|
  {
    if due != [] {
      var n := |due| - 1;
      var front, inv := due[..n], due[n];
      assert due == front + [inv];
      assert CronSweep.DueRows(db, front);
      LegacySweepOutcome(db, front, now, env);
      var db1 := LegacySweep(db, front, now, env);
      LegacyNextStillStored(db, front, inv, db1, now, env);
      LegacyProcessOneEffect(db1, inv, n, now, env);
      LegacySweepStep(db, due, n, db1, now, env);
      assert due[..n + 1] == due;
      LegacyStep(db, front, inv, db1, LegacyProcessOne(db1, inv, n, now, env), now, env);
      LegacyLogsRecordedStep(db, front, inv, db1, LegacyProcessOne(db1, inv, n, now, env), now, env);
    }
  }

  /** One more iteration of the loop is one more step of the fold. */
  lemma LegacySweepStep(db0: Db, due: seq<ScheduledInvoice>, k: nat, db1: Db, now: Instant, env: Environment)
    requires IsValid(now.date) && k < |due|
    requires db1 == LegacySweep(db0, due[..k], now, env)
    ensures LegacyProcessOne(db1, due[k], k, now, env) == LegacySweep(db0, due[..k + 1], now, env)
  {
    assert due[..k + 1][..k] == due[..k];
  }

  /**
   * The final tables of one `processScheduledInvoices` run, given the listing the query
   * returned: a failing query is swallowed and changes nothing.
   */
  ghost predicate LegacyHandled(db0: Db, db: Db, due: seq<ScheduledInvoice>, now: Instant, env: Environment)
    requires IsValid(now.date)
  {
    if env.queryFault.Some? then db == db0
    else IsListing(db0.rows, Some(now.date), due) && db == LegacySweep(db0, due, now, env)
  }

  /** A run over a correct listing keeps the invariant of `LegacySweepOutcome`. */
  lemma LegacyHandledOutcome(db0: Db, db: Db, due: seq<ScheduledInvoice>, now: Instant, env: Environment)
    requires IsValid(now.date) && WellFormed(db0) && env.queryFault.None?
    requires LegacyHandled(db0, db, due, now, env)
    ensures LegacySwept(db0, due, db, now, env)
  {
    LegacySweepOutcome(db0, due, now, env);
  }

  /** `getStatus`'s answer. */
  datatype SchedulerStatus = SchedulerStatus(isRunning: bool, activeIntervals: nat)

  class SchedulerService {
    var intervals: map<string, TimerHandle>
    var isRunning: bool

    /** A running scheduler holds exactly its 'main' interval; a stopped one holds none. */
    ghost predicate Valid()
      reads this
    {
      intervals.Keys == if isRunning then {"main"} else {}
    }

    constructor ()
      ensures Valid() && !isRunning && intervals == map[]
    {
      intervals, isRunning := map[], false;
    }

    /** `getStatus` (scheduler.ts:117-122). */
    function Status(): (s: SchedulerStatus)
      reads this
      requires Valid()
      ensures s.isRunning == isRunning
      ensures s.activeIntervals == if isRunning then 1 else 0
    {
      SchedulerStatus(isRunning, |intervals.Keys|)
    }

    /** `processScheduledInvoices` (scheduler.ts:54-108): never rejects. */
    method ProcessScheduledInvoices(store: Store.InvoiceStore, now: Instant, env: Environment) returns (ghost due: seq<ScheduledInvoice>)
      requires store.Valid() && IsValid(now.date)
      modifies store
      ensures store.Valid()
      ensures LegacyHandled(old(store.State()), store.State(), due, now, env)
    {
      due := [];
      var listing := store.GetInvoicesDueToday(now.date, env.queryFault);
      if listing.Failure? {
        return;
      }
      var invoicesDue := listing.value;
      due := invoicesDue;
      ghost var db0 := store.State();
      var k := 0;
      while k < |invoicesDue|
        invariant 0 <= k <= |invoicesDue|
        invariant store.Valid()
        invariant store.State() == LegacySweep(db0, invoicesDue[..k], now, env)
      {
        ghost var dbBefore := store.State();
        ProcessInvoice(store, invoicesDue[k], k, now, env);
        LegacySweepStep(db0, invoicesDue, k, dbBefore, now, env);
        k := k + 1;
      }
      assert invoicesDue[..k] == invoicesDue;
    }

    /** One pass of the loop of scheduler.ts:69-100 on the store. */
    method ProcessInvoice(store: Store.InvoiceStore, inv: ScheduledInvoice, k: nat, now: Instant, env: Environment)
      requires store.Valid() && IsValid(now.date)
      modifies store
      ensures store.Valid()
      ensures store.State() == LegacyProcessOne(old(store.State()), inv, k, now, env)
    {
      var f := env.faults(k);
      var delivery := env.deliver(k);
      if delivery.Delivered? {
        var u := store.UpdateLastSent(inv.id, now, f.fetch, f.update);
        if u.Fail? {
          store.LogEmailSent(inv.id, inv.email, LogFailed, Some(u.error), f.catchLog);
        } else {
          store.LogEmailSent(inv.id, inv.email, LogSuccess, None, f.outcomeLog);
        }
      } else {
        store.LogEmailSent(inv.id, inv.email, LogFailed, Some(delivery.error), f.outcomeLog);
      }
    }

    /**
     * `start` (scheduler.ts:9-31): a second start is a no-op; otherwise the 'main'
     * interval is registered and one run is made right away.
     */
    method Start(store: Store.InvoiceStore, timer: TimerHandle, now: Instant, env: Environment) returns (ghost due: seq<ScheduledInvoice>)
      requires Valid() && store.Valid() && IsValid(now.date)
      modifies this, store
      ensures Valid() && store.Valid() && isRunning
      ensures old(isRunning) ==> intervals == old(intervals) && store.State() == old(store.State())
      ensures !old(isRunning) ==> intervals == map["main" := timer] && LegacyHandled(old(store.State()), store.State(), due, now, env)
    {
      due := [];
      if isRunning {
        return;
      }
      isRunning := true;
      intervals := intervals["main" := timer];
      due := ProcessScheduledInvoices(store, now, env);
    }

    /** `stop` (scheduler.ts:34-51): clears every interval it holds; stopping a stopped scheduler is a no-op. */
    method Stop() returns (cleared: set<TimerHandle>)
      requires Valid()
      modifies this
      ensures Valid() && !isRunning && intervals == map[]
      ensures cleared == old(intervals.Values)
    {
      if !isRunning {
        return {};
      }
      cleared := intervals.Values;
      intervals := map[];
      isRunning := false;
    }

    /** `forceProcess` (scheduler.ts:111-114): one run, whether or not the scheduler is running. */
    method ForceProcess(store: Store.InvoiceStore, now: Instant, env: Environment) returns (ghost due: seq<ScheduledInvoice>)
      requires store.Valid() && IsValid(now.date)
      modifies store
      ensures store.Valid()
      ensures LegacyHandled(old(store.State()), store.State(), due, now, env)
    {
      due := ProcessScheduledInvoices(store, now, env);
    }

    /**
     * `scheduleImmediateInvoice` (scheduler.ts:125-149): stores the invoice as active,
     * forces one run and answers its id; a failed insert is rethrown before any run.
     * For a day the schedule endpoint admits, the forced run does not send the new
     * invoice: it is not due until its next send date, which is after today.
     */
    method ScheduleImmediateInvoice(store: Store.InvoiceStore, email: string, amount: int, frequency: Frequency,
                                    dueDateDay: int, concept: string, now: Instant, env: Environment, createFault: Option<string>)
      returns (r: Result<InvoiceId, string>, ghost created: Db, ghost due: seq<ScheduledInvoice>)
      requires store.Valid() && IsValid(now.date)
      modifies store
      ensures store.Valid()
      ensures var input := NewInvoice(email, amount, frequency, Some(dueDateDay), concept, true, None);
        (created, r) == CreateScheduledInvoice(old(store.State()), input, now, createFault)
      ensures r.Failure? ==> store.State() == old(store.State())
      ensures r.Success? ==> LegacyHandled(created, store.State(), due, now, env)
      ensures r.Success? && (frequency == Monthly ==> 1 <= dueDateDay <= 31) ==>
        r.value in store.rows && store.rows[r.value] == created.rows[r.value] && store.rows[r.value].lastSent.None?
    {
      var input := NewInvoice(email, amount, frequency, Some(dueDateDay), concept, true, None);
      ghost var db0 := store.State();
      r := store.CreateScheduledInvoice(input, now, createFault);
      created := store.State();
      due := [];
      if r.Failure? {
        return;
      }
      due := ForceProcess(store, now, env);
      if frequency == Monthly ==> 1 <= dueDateDay <= 31 {
        NewScheduleNotDueToday(db0, input, now, createFault);
        if env.queryFault.None? {
          LegacyHandledOutcome(created, store.State(), due, now, env);
          assert r.value !in CronSweep.IdsOf(due) by {
            forall i | 0 <= i < |due| ensures due[i].id != r.value {
              assert Selected(due[i], Some(now.date));
            }
          }
        }
      }
    }
  }
}
