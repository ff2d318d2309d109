/**
 * The invoice store's operations (the methods of `SupabaseDatabaseManager`,
 * lib/database.ts) as functions from one database value to the next. They specify
 * the methods of `Store.InvoiceStore` and are what the sweeps are folded from.
 */
module StoreOps {
  import opened Wrappers
  import opened Calendar
  import opened Records

  /** Both tables, and the serial the next inserted row will get. */
  datatype Db = Db(rows: map<InvoiceId, ScheduledInvoice>, logs: seq<EmailLog>, nextSerial: nat)

  /** Every row is stored under its own id, and that id was handed out by an earlier insert. */
  predicate WellFormed(db: Db) {
    forall id | id in db.rows :: db.rows[id].id == id && id.Stored? && id.serial < db.nextSerial
  }

  /** Rows other than `except` are present and unchanged. */
  predicate SameRowsExcept(before: map<InvoiceId, ScheduledInvoice>, after: map<InvoiceId, ScheduledInvoice>, except: InvoiceId) {
    forall id | id in before && id != except :: id in after && after[id] == before[id]
  }

  /** `insert(...).select('id').single()`: the database assigns a fresh id. */
  function Insert(db: Db, row: ScheduledInvoice): (r: (Db, InvoiceId))
    ensures r.0.rows == db.rows[r.1 := row.(id := r.1)] && r.0.logs == db.logs
    ensures r.0.nextSerial == db.nextSerial + 1 && r.1 == Stored(db.nextSerial)
    ensures WellFormed(db) ==> WellFormed(r.0) && r.1 !in db.rows
  {
    var id := Stored(db.nextSerial);
    (db.(rows := db.rows[id := row.(id := id)], nextSerial := db.nextSerial + 1), id)
  }

  // ---------------------------------------------------------------------------
  // createScheduledInvoice (lib/database.ts:5-35)

  /** The fields a caller gives `createScheduledInvoice` (everything but id, created_at and next_send_date). */
  datatype NewInvoice = NewInvoice(
    email: string,
    amount: int,
    frequency: Frequency,
    dueDateDay: Option<int>,
    concept: string,
    isActive: bool,
    lastSent: Option<Instant>)

  const CreateError: string := "Error creando factura: "

  /**
   * Computes the next send date first (it throws on a NaN monthly day), then inserts
   * the row with status 'Programada' when active and 'Pendiente' otherwise;
   * `created_at` is the database's insert time.
   */
  function CreateScheduledInvoice(db: Db, input: NewInvoice, now: Instant, fault: Option<string>): (r: (Db, Result<InvoiceId, string>))
    requires IsValid(now.date)
    ensures var next := NextSendDateOf(input.frequency, input.dueDateDay, now.date);
      && (r.1.Failure? <==> next.Failure? || fault.Some?)
      && (r.1.Failure? ==> r.0 == db)
      && (r.1.Success? ==>
            var id := r.1.value;
            && r.0.logs == db.logs
            && id in r.0.rows && SameRowsExcept(db.rows, r.0.rows, id)
            && r.0.rows.Keys == db.rows.Keys + {id}
            && (WellFormed(db) ==> WellFormed(r.0) && id !in db.rows)
            && r.0.rows[id].status == Some(if input.isActive then Programada else Pendiente)
            && r.0.rows[id].nextSendDate == next.value
            && r.0.rows[id].isActive == input.isActive
            && r.0.rows[id].email == input.email && r.0.rows[id].amount == input.amount
            && r.0.rows[id].frequency == input.frequency && r.0.rows[id].dueDateDay == input.dueDateDay
            && r.0.rows[id].concept == input.concept && r.0.rows[id].lastSent == input.lastSent)
  {
    var next := NextSendDateOf(input.frequency, input.dueDateDay, now.date);
    if next.Failure? then (db, Failure(next.error))
    else if fault.Some? then (db, Failure(CreateError + fault.value))
    else
      var status := if input.isActive then Programada else Pendiente;
      var row := ScheduledInvoice(Stored(0), input.email, input.amount, input.frequency, input.dueDateDay,
                                  input.concept, input.isActive, Some(now), input.lastSent, next.value, Some(status));
      var (db', id) := Insert(db, row);
      (db', Success(id))
  }

  /** A scheduled invoice the schedule endpoint admits is never due on the day it is created. */
  lemma NewScheduleNotDueToday(db: Db, input: NewInvoice, now: Instant, fault: Option<string>)
    requires IsValid(now.date) && input.dueDateDay.Some?
    requires input.frequency == Monthly ==> 1 <= input.dueDateDay.value <= 31
    ensures var r := CreateScheduledInvoice(db, input, now, fault);
      r.1.Success? ==> Before(now.date, r.0.rows[r.1.value].nextSendDate)
  {
    NextSendDateIsLater(input.frequency, input.dueDateDay.value, now.date);
  }

  // ---------------------------------------------------------------------------
  // Listing queries (lib/database.ts:37-50 and 67-87)

  /** `.eq('is_active', true)` and, for the due query, `.lte('next_send_date', today)`. */
  predicate Selected(inv: ScheduledInvoice, dueBy: Option<Date>) {
    inv.isActive && (dueBy.Some? ==> NotAfter(inv.nextSendDate, dueBy.value))
  }

  predicate SortedByDate(list: seq<ScheduledInvoice>) {
    forall i, j | 0 <= i < j < |list| :: NotAfter(list[i].nextSendDate, list[j].nextSendDate)
  }

  predicate DistinctIds(list: seq<ScheduledInvoice>) {
    forall i, j | 0 <= i < j < |list| :: list[i].id != list[j].id
  }

  /**
   * `list` is what the query returns: exactly the selected rows, each once, as stored,
   * ordered by `next_send_date` ascending (ties in whatever order the database picks).
   */
  predicate IsListing(rows: map<InvoiceId, ScheduledInvoice>, dueBy: Option<Date>, list: seq<ScheduledInvoice>) {
    && (forall i | 0 <= i < |list| :: list[i].id in rows && rows[list[i].id] == list[i] && Selected(list[i], dueBy))
    && (forall id | id in rows && Selected(rows[id], dueBy) :: rows[id] in list)
    && DistinctIds(list)
    && SortedByDate(list)
  }

  /** Places `x` after every entry whose date is not after its own. */
  function InsertByDate(list: seq<ScheduledInvoice>, x: ScheduledInvoice): (r: seq<ScheduledInvoice>)
    ensures |r| == |list| + 1
  {
    if list == [] then [x]
    else if NotAfter(list[0].nextSendDate, x.nextSendDate) then [list[0]] + InsertByDate(list[1..], x)
    else [x] + list
  }

  lemma {:induction false} InsertByDatePermutes(list: seq<ScheduledInvoice>, x: ScheduledInvoice)
    ensures multiset(InsertByDate(list, x)) == multiset(list) + multiset{x}
  {
    if list != [] && NotAfter(list[0].nextSendDate, x.nextSendDate) {
      InsertByDatePermutes(list[1..], x);
      assert list == [list[0]] + list[1..];
    }
  }

  lemma InsertedFrom(list: seq<ScheduledInvoice>, x: ScheduledInvoice, y: ScheduledInvoice)
    requires y in InsertByDate(list, x)
    ensures y in list || y == x
  {
    InsertByDatePermutes(list, x);
    assert y in multiset(InsertByDate(list, x));
  }

  lemma {:induction false} InsertByDateSorted(list: seq<ScheduledInvoice>, x: ScheduledInvoice)
    requires SortedByDate(list)
    ensures SortedByDate(InsertByDate(list, x))
  {
    if list != [] && NotAfter(list[0].nextSendDate, x.nextSendDate) {
      var rest := InsertByDate(list[1..], x);
      InsertByDateSorted(list[1..], x);
      var r := [list[0]] + rest;
      forall j | 0 < j < |r| ensures NotAfter(list[0].nextSendDate, r[j].nextSendDate) {
        InsertedFrom(list[1..], x, rest[j - 1]);
      }
    }
  }

  lemma {:induction false} InsertByDateDistinct(list: seq<ScheduledInvoice>, x: ScheduledInvoice)
    requires DistinctIds(list) && forall i | 0 <= i < |list| :: list[i].id != x.id
    ensures DistinctIds(InsertByDate(list, x))
  {
    if list != [] && NotAfter(list[0].nextSendDate, x.nextSendDate) {
      var rest := InsertByDate(list[1..], x);
      InsertByDateDistinct(list[1..], x);
      var r := [list[0]] + rest;
      forall j | 0 < j < |r| ensures list[0].id != r[j].id {
        InsertedFrom(list[1..], x, rest[j - 1]);
      }
    }
  }

  // ---------------------------------------------------------------------------
  // updateLastSent (lib/database.ts:89-121)

  /** PostgREST's error for `.single()` on a query that matched no row. */
  const NoRowsMessage: string := "JSON object requested, multiple (or no) rows returned"
  const FetchError: string := "Error obteniendo factura: "
  const UpdateError: string := "Error actualizando factura: "

  /** The row after a send: `last_sent` is now and `next_send_date` is recomputed from today, when it can be. */
  function Advanced(inv: ScheduledInvoice, now: Instant): (r: ScheduledInvoice)
    requires IsValid(now.date)
  {
    match NextSendDateOf(inv.frequency, inv.dueDateDay, now.date)
    case Success(next) => inv.(lastSent := Some(now), nextSendDate := next)
    case Failure(_) => inv
  }

  /**
   * What `updateLastSent` rejects with when the row it re-reads is `inv`: the fetch error,
   * the calculator's error or the write error, in that order; None when the write goes through.
   */
  function UpdateRejection(inv: ScheduledInvoice, now: Instant, fetchFault: Option<string>, updateFault: Option<string>): (r: Option<string>)
    requires IsValid(now.date)
    ensures fetchFault.Some? ==> r == Some(FetchError + fetchFault.value)
    ensures r.None? <==>
      fetchFault.None? && updateFault.None? && NextSendDateOf(inv.frequency, inv.dueDateDay, now.date).Success?
  {
    if fetchFault.Some? then Some(FetchError + fetchFault.value)
    else
      match NextSendDateOf(inv.frequency, inv.dueDateDay, now.date)
      case Failure(e) => Some(e)
      case Success(_) => if updateFault.Some? then Some(UpdateError + updateFault.value) else None
  }

  /**
   * Fetches the row (a missing id is a fetch error of `.single()`), recomputes the next
   * send date from today (from the row's own cadence and day) and writes `last_sent`
   * and `next_send_date`; nothing else changes.
   */
  function UpdateLastSent(db: Db, id: InvoiceId, now: Instant, fetchFault: Option<string>, updateFault: Option<string>): (r: (Db, Outcome<string>))
    requires IsValid(now.date)
    ensures r.1.Pass? <==>
      fetchFault.None? && id in db.rows && updateFault.None?
      && NextSendDateOf(db.rows[id].frequency, db.rows[id].dueDateDay, now.date).Success?
    ensures r.1.Fail? ==> r.0 == db
    ensures id !in db.rows && fetchFault.None? ==> r.1 == Fail(FetchError + NoRowsMessage)
    ensures id in db.rows ==>
      r.1 == (match UpdateRejection(db.rows[id], now, fetchFault, updateFault) case Some(e) => Fail(e) case None => Pass)
    ensures r.1.Pass? ==>
      && r.0.logs == db.logs && r.0.nextSerial == db.nextSerial
      && r.0.rows == db.rows[id := Advanced(db.rows[id], now)]
      && r.0.rows[id].lastSent == Some(now)
      && r.0.rows[id] == db.rows[id].(lastSent := r.0.rows[id].lastSent, nextSendDate := r.0.rows[id].nextSendDate)
  {
    if fetchFault.Some? then (db, Fail(FetchError + fetchFault.value))
    else if id !in db.rows then (db, Fail(FetchError + NoRowsMessage))
    else
      var inv := db.rows[id];
      match NextSendDateOf(inv.frequency, inv.dueDateDay, now.date)
      case Failure(e) => (db, Fail(e))
      case Success(next) =>
        if updateFault.Some? then (db, Fail(UpdateError + updateFault.value))
        else (db.(rows := db.rows[id := inv.(lastSent := Some(now), nextSendDate := next)]), Pass)
  }

  /** An admitted cadence always moves `next_send_date` past today, so the row stops being due. */
  lemma AdvancedLeavesDue(inv: ScheduledInvoice, now: Instant)
    requires IsValid(now.date) && inv.dueDateDay.Some?
    requires inv.frequency == Monthly ==> 1 <= inv.dueDateDay.value <= 31
    ensures Advanced(inv, now).lastSent == Some(now)
    ensures Before(now.date, Advanced(inv, now).nextSendDate)
    ensures !Selected(Advanced(inv, now), Some(now.date))
  {
    NextSendDateIsLater(inv.frequency, inv.dueDateDay.value, now.date);
  }

  // ---------------------------------------------------------------------------
  // History records (lib/database.ts:124-189)

  /** The copy of a scheduled invoice that records one send: inactive, 'Pendiente', dated `at`. */
  function HistoryRow(original: ScheduledInvoice, at: Instant): ScheduledInvoice {
    ScheduledInvoice(Stored(0), original.email, original.amount, original.frequency, original.dueDateDay,
                     original.concept, false, Some(at), Some(at), at.date, Some(Pendiente))
  }

  const HistoryError: string := "Error creando registro histórico: "
  const RetroactiveError: string := "Error creando registro histórico retroactivo: "

  /** `createInvoiceHistoryRecord`: inserts one inactive 'Pendiente' copy dated now; the original is untouched. */
  function CreateInvoiceHistoryRecord(db: Db, original: ScheduledInvoice, now: Instant, fault: Option<string>): (r: (Db, Result<InvoiceId, string>))
    ensures r.1.Failure? <==> fault.Some?
    ensures r.1.Failure? ==> r.0 == db && r.1.error == HistoryError + fault.value
    ensures r.1.Success? ==>
      var id := r.1.value;
      && r.0.logs == db.logs
      && id in r.0.rows && r.0.rows == db.rows[id := r.0.rows[id]]
      && (WellFormed(db) ==> WellFormed(r.0) && id !in db.rows)
      && r.0.rows[id].id == id
      && !r.0.rows[id].isActive && r.0.rows[id].status == Some(Pendiente)
      && r.0.rows[id].lastSent == Some(now) && r.0.rows[id].createdAt == Some(now)
      && r.0.rows[id].nextSendDate == now.date
      && r.0.rows[id].email == original.email && r.0.rows[id].amount == original.amount
      && r.0.rows[id].frequency == original.frequency && r.0.rows[id].dueDateDay == original.dueDateDay
      && r.0.rows[id].concept == original.concept
  {
    if fault.Some? then (db, Failure(HistoryError + fault.value))
    else
      var (db', id) := Insert(db, HistoryRow(original, now));
      (db', Success(id))
  }

  /** The instant `specificDate + 'T12:00:00-05:00'` stands for: noon in Bogotá, 17:00 UTC. */
  function NoonInBogota(d: Date): Instant {
    Instant(d, 17 * 60 * 60 * 1000)
  }

  /** `createRetroactiveHistoryRecord`: the same copy, dated on a given day instead of now. */
  function CreateRetroactiveHistoryRecord(db: Db, original: ScheduledInvoice, specificDate: Date, fault: Option<string>): (r: (Db, Result<InvoiceId, string>))
    ensures r.1.Failure? <==> fault.Some?
    ensures r.1.Failure? ==> r.0 == db && r.1.error == RetroactiveError + fault.value
    ensures r.1.Success? ==>
      var id := r.1.value;
      && r.0.logs == db.logs
      && id in r.0.rows && r.0.rows == db.rows[id := r.0.rows[id]]
      && (WellFormed(db) ==> WellFormed(r.0) && id !in db.rows)
      && r.0.rows[id].id == id
      && !r.0.rows[id].isActive && r.0.rows[id].status == Some(Pendiente)
      && r.0.rows[id].nextSendDate == specificDate
      && r.0.rows[id].lastSent == Some(NoonInBogota(specificDate))
      && r.0.rows[id].createdAt == Some(NoonInBogota(specificDate))
      && r.0.rows[id].email == original.email && r.0.rows[id].amount == original.amount
      && r.0.rows[id].frequency == original.frequency && r.0.rows[id].dueDateDay == original.dueDateDay
      && r.0.rows[id].concept == original.concept
  {
    if fault.Some? then (db, Failure(RetroactiveError + fault.value))
    else
      var (db', id) := Insert(db, HistoryRow(original, NoonInBogota(specificDate)));
      (db', Success(id))
  }

  // ---------------------------------------------------------------------------
  // logEmailSent (lib/database.ts:191-205)

  /** `errorMessage || null`: an absent or empty message is stored as null. */
  function ErrorColumn(message: Option<string>): (r: Option<string>)
    ensures r.Some? <==> message.Some? && message.value != ""
    ensures r.Some? ==> r == message
  {
    if message.Some? && message.value != "" then message else None
  }

  /** Appends one log row; when the insert fails the error is swallowed and nothing is written. */
  function LogEmailSent(db: Db, invoiceId: InvoiceId, email: string, status: LogStatus, errorMessage: Option<string>, fault: bool): (r: Db)
    ensures r.rows == db.rows && r.nextSerial == db.nextSerial
    ensures r.logs == db.logs + (if fault then [] else [EmailLog(invoiceId, email, status, ErrorColumn(errorMessage))])
  {
    if fault then db
    else db.(logs := db.logs + [EmailLog(invoiceId, email, status, ErrorColumn(errorMessage))])
  }

  // ---------------------------------------------------------------------------
  // Single-row updates and delete (lib/database.ts:257-294)

  const DeactivateError: string := "Error desactivando factura: "
  const StatusError: string := "Error actualizando estado: "
  const DeleteError: string := "Error eliminando factura: "

  /** `update({is_active: false}).eq('id', id)`: a missing id matches no row and is not an error. */
  function DeactivateScheduledInvoice(db: Db, id: InvoiceId, fault: Option<string>): (r: (Db, Outcome<string>))
    ensures r.1.Fail? <==> fault.Some?
    ensures r.1.Fail? || id !in db.rows ==> r.0 == db
    ensures r.1.Pass? ==> r.0.logs == db.logs && r.0.rows.Keys == db.rows.Keys && SameRowsExcept(db.rows, r.0.rows, id)
    ensures r.1.Pass? && id in db.rows ==> r.0.rows[id] == db.rows[id].(isActive := false)
  {
    if fault.Some? then (db, Fail(DeactivateError + fault.value))
    else if id !in db.rows then (db, Pass)
    else (db.(rows := db.rows[id := db.rows[id].(isActive := false)]), Pass)
  }

  /** `update({status}).eq('id', id)`: only the status of that row changes. */
  function UpdateInvoiceStatus(db: Db, id: InvoiceId, status: Status, fault: Option<string>): (r: (Db, Outcome<string>))
    ensures r.1.Fail? <==> fault.Some?
    ensures r.1.Fail? || id !in db.rows ==> r.0 == db
    ensures r.1.Pass? ==> r.0.logs == db.logs && r.0.rows.Keys == db.rows.Keys && SameRowsExcept(db.rows, r.0.rows, id)
    ensures r.1.Pass? && id in db.rows ==> r.0.rows[id] == db.rows[id].(status := Some(status))
  {
    if fault.Some? then (db, Fail(StatusError + fault.value))
    else if id !in db.rows then (db, Pass)
    else (db.(rows := db.rows[id := db.rows[id].(status := Some(status))]), Pass)
  }

  /** `delete().eq('id', id)`: removes exactly that row, if it exists. */
  function DeleteInvoice(db: Db, id: InvoiceId, fault: Option<string>): (r: (Db, Outcome<string>))
    ensures r.1.Fail? <==> fault.Some?
    ensures r.1.Fail? ==> r.0 == db && r.1.error == DeleteError + fault.value
    ensures r.1.Pass? ==> r.0.logs == db.logs && r.0.nextSerial == db.nextSerial
    ensures r.1.Pass? ==> id !in r.0.rows && r.0.rows.Keys == db.rows.Keys - {id} && SameRowsExcept(db.rows, r.0.rows, id)
  {
    if fault.Some? then (db, Fail(DeleteError + fault.value))
    else (db.(rows := db.rows - {id}), Pass)
  }

  /** Inserting the history copy and deleting it again leaves the rows as they were. */
  lemma HistoryRollbackRestoresRows(db: Db, original: ScheduledInvoice, now: Instant)
    requires WellFormed(db)
    ensures var (db1, h) := CreateInvoiceHistoryRecord(db, original, now, None);
      h.Success? && DeleteInvoice(db1, h.value, None).0.rows == db.rows
  {
    var (db1, h) := CreateInvoiceHistoryRecord(db, original, now, None);
    assert h.value !in db.rows;
    assert DeleteInvoice(db1, h.value, None).0.rows == db.rows;
  }
}
