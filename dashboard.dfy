/**
 * The dashboard page (app/page.tsx): how a `scheduled_invoices` row is shown as a
 * table row, the order the table is loaded in, and the status toggle that marks a
 * sent invoice paid or pending again. The page's state is the list of rows it shows.
 */
module Dashboard {
  import opened Wrappers
  import opened Calendar
  import opened Records
  import opened StoreOps
  import Store

  /** A row of the dashboard table (lib/data.ts:1-9). */
  datatype Invoice = Invoice(id: InvoiceId, status: Status, email: string, amount: int, frequency: Frequency, concept: string, date: Date)

  // ---------------------------------------------------------------------------
  // convertScheduledToInvoice (app/page.tsx:79-116)

  const MillisPerDay: int := 24 * 60 * 60 * 1000
  /** Bogotá is five hours behind UTC all year. */
  const BogotaOffsetMillis: int := 5 * 60 * 60 * 1000

  /** A timestamp the database can hold: a real date and a time within the day. */
  predicate RealInstant(t: Instant) {
    IsValid(t.date) && 0 <= t.millisOfDay < MillisPerDay
  }

  /**
   * `toLocaleDateString('en-CA', { timeZone: 'America/Bogota' })`: the calendar day in
   * Bogotá, which is the day before the UTC day for the first five hours of it.
   */
  function BogotaDate(t: Instant): (d: Date)
    requires RealInstant(t)
    ensures IsValid(d)
    ensures t.millisOfDay >= BogotaOffsetMillis ==> d == t.date
    ensures t.millisOfDay < BogotaOffsetMillis && t.date.day > 1 ==>
      d == Date(t.date.year, t.date.month, t.date.day - 1)
    ensures t.millisOfDay < BogotaOffsetMillis && t.date.day == 1 ==>
      MonthOf(d) == PrevMonth(MonthOf(t.date)) && d.day == DaysIn(MonthOf(d))
  {
    if t.millisOfDay >= BogotaOffsetMillis then t.date
    else
      var ym := MonthOf(t.date);
      if t.date.day > 1 then Date(t.date.year, t.date.month, t.date.day - 1)
      else Date(PrevMonth(ym).year, PrevMonth(ym).month, DaysIn(PrevMonth(ym)))
  }

  /** `status || (is_active ? 'Programada' : 'Pendiente')`. */
  function DisplayStatus(row: ScheduledInvoice): Status {
    if row.status.Some? then row.status.value
    else if row.isActive then Programada else Pendiente
  }

  predicate RealTimestamps(row: ScheduledInvoice) {
    row.createdAt.Some? ==> RealInstant(row.createdAt.value)
  }

  /**
   * The table row of a stored row: a scheduled invoice shows its next send date, a
   * sent one the Bogotá day it was created, and one with neither the UTC `today`.
   */
  function ConvertScheduledToInvoice(row: ScheduledInvoice, todayUtc: Date): (inv: Invoice)
    requires RealTimestamps(row)
    ensures inv.id == row.id && inv.email == row.email && inv.amount == row.amount
    ensures inv.frequency == row.frequency && inv.concept == row.concept
  {
    var status := DisplayStatus(row);
    var date :=
      if status == Programada then row.nextSendDate
      else if row.createdAt.Some? then BogotaDate(row.createdAt.value)
      else todayUtc;
    Invoice(row.id, status, row.email, row.amount, row.frequency, row.concept, date)
  }

  /** A row the schedule endpoint creates is shown as scheduled, on the day it will be sent. */
  lemma ScheduledRowShowsNextSend(row: ScheduledInvoice, todayUtc: Date)
    requires RealTimestamps(row)
    requires row.isActive && (row.status.None? || row.status == Some(Programada))
    ensures ConvertScheduledToInvoice(row, todayUtc).status == Programada
    ensures ConvertScheduledToInvoice(row, todayUtc).date == row.nextSendDate
  {
  }

  /** A history copy made when the cron job sends an invoice is shown pending, on the Bogotá day of sending. */
  lemma HistoryRowShowsSendDay(original: ScheduledInvoice, now: Instant, todayUtc: Date)
    requires RealInstant(now)
    ensures var inv := ConvertScheduledToInvoice(HistoryRow(original, now), todayUtc);
      inv.status == Pendiente && inv.date == BogotaDate(now) && NotAfter(inv.date, now.date)
  {
  }

  /** An inactive row with no stored status (an invoice the old scheduler deactivated) is shown pending, never paid. */
  lemma InactiveRowShowsPending(row: ScheduledInvoice, todayUtc: Date)
    requires RealTimestamps(row) && !row.isActive && row.status.None?
    ensures ConvertScheduledToInvoice(row, todayUtc).status == Pendiente
  {
  }

  // ---------------------------------------------------------------------------
  // The order of loadInvoices (app/page.tsx:131-140)

  function ConvertAll(rows: seq<ScheduledInvoice>, todayUtc: Date): (r: seq<Invoice>)
    requires forall i | 0 <= i < |rows| :: RealTimestamps(rows[i])
    ensures |r| == |rows|
    ensures forall i | 0 <= i < |rows| :: r[i] == ConvertScheduledToInvoice(rows[i], todayUtc)
  {
    if rows == [] then [] else [ConvertScheduledToInvoice(rows[0], todayUtc)] + ConvertAll(rows[1..], todayUtc)
  }

  /** Latest date first. */
  predicate SortedDesc(s: seq<Invoice>) {
    forall i, j | 0 <= i < j < |s| :: NotAfter(s[j].date, s[i].date)
  }

  /** The rows shown for one date, in order. */
  function OnDate(s: seq<Invoice>, d: Date): (r: seq<Invoice>)
    ensures |r| <= |s|
  {
    if s == [] then []
    else (if s[0].date == d then [s[0]] else []) + OnDate(s[1..], d)
  }

  /** Puts `x` in front of the first row that is not later than it. */
  function InsertDesc(x: Invoice, s: seq<Invoice>): seq<Invoice> {
    if s == [] || NotAfter(s[0].date, x.date) then [x] + s
    else [s[0]] + InsertDesc(x, s[1..])
  }

  /**
   * `sort((a, b) => dateB - dateA)`: latest date first; `Array.prototype.sort` is
   * stable, so rows of the same date keep their order.
   */
  function SortByDateDesc(s: seq<Invoice>): seq<Invoice> {
    if s == [] then [] else InsertDesc(s[0], SortByDateDesc(s[1..]))
  }

  lemma {:induction false} InsertDescSorted(x: Invoice, s: seq<Invoice>)
    requires SortedDesc(s)
    ensures SortedDesc(InsertDesc(x, s))
    ensures multiset(InsertDesc(x, s)) == multiset(s) + multiset{x}
  {
    if s != [] && !NotAfter(s[0].date, x.date) {
      InsertDescSorted(x, s[1..]);
      var t := InsertDesc(x, s[1..]);
      assert s == [s[0]] + s[1..];
      forall i | 0 <= i < |t| ensures NotAfter(t[i].date, s[0].date) {
        assert t[i] in multiset(t);
        assert t[i] == x || t[i] in multiset(s[1..]);
      }
    }
  }

  /** The rows of one date after an insertion: `x` joins in front exactly when it has that date. */
  lemma {:induction false} InsertDescOnDate(x: Invoice, s: seq<Invoice>, d: Date)
    requires SortedDesc(s)
    ensures OnDate(InsertDesc(x, s), d) == (if x.date == d then [x] else []) + OnDate(s, d)
  {
    if s == [] || NotAfter(s[0].date, x.date) {
      assert ([x] + s)[1..] == s;
    } else {
      var t := InsertDesc(x, s[1..]);
      assert SortedDesc(s[1..]);
      InsertDescOnDate(x, s[1..], d);
      assert ([s[0]] + t)[1..] == t;
      if x.date == d {
        assert s[0].date != d;
      }
    }
  }

  /** The loaded table is ordered latest first and holds exactly the converted rows. */
  lemma {:induction false} SortByDateDescCorrect(s: seq<Invoice>)
    ensures SortedDesc(SortByDateDesc(s))
    ensures multiset(SortByDateDesc(s)) == multiset(s)
  {
    if s != [] {
      SortByDateDescCorrect(s[1..]);
      InsertDescSorted(s[0], SortByDateDesc(s[1..]));
      assert s == [s[0]] + s[1..];
    }
  }

  /** Stability: for every date, its rows appear in the order the query returned them. */
  lemma {:induction false} SortByDateDescStable(s: seq<Invoice>, d: Date)
    ensures OnDate(SortByDateDesc(s), d) == OnDate(s, d)
  {
    if s != [] {
      SortByDateDescStable(s[1..], d);
      SortByDateDescCorrect(s[1..]);
      InsertDescOnDate(s[0], SortByDateDesc(s[1..]), d);
    }
  }

  // ---------------------------------------------------------------------------
  // toggleInvoiceStatus (app/page.tsx:156-189)

  /** `invoices.find(inv => inv.id === id)`: the first row with that id. */
  function Find(s: seq<Invoice>, id: InvoiceId): (r: Option<Invoice>)
    ensures r.None? <==> forall i | 0 <= i < |s| :: s[i].id != id
    ensures r.Some? ==> exists i | 0 <= i < |s| :: s[i] == r.value && s[i].id == id && forall j | 0 <= j < i :: s[j].id != id
  {
    if s == [] then None
    else if s[0].id == id then Some(s[0])
    else
      var r := Find(s[1..], id);
      if r.Some? then
        var i :| 0 <= i < |s[1..]| && s[1..][i] == r.value && s[1..][i].id == id && forall j | 0 <= j < i :: s[1..][j].id != id;
        assert s[i + 1] == r.value;
        r
      else r
  }

  /** The status a click asks for: none for a scheduled invoice, otherwise the other of paid and pending. */
  function ToggledStatus(s: Status): (r: Option<Status>)
    ensures r.None? <==> s == Programada
    ensures r.Some? ==> r.value != Programada && r.value != s
  {
    match s
    case Programada => None
    case Pagada => Some(Pendiente)
    case Pendiente => Some(Pagada)
  }

  /** Toggling twice is the identity on the statuses that can be toggled. */
  lemma ToggledStatusInvolution(s: Status)
    requires s != Programada
    ensures ToggledStatus(ToggledStatus(s).value) == Some(s)
  {
  }

  /** `prevInvoices.map(...)`: every row with that id takes the new status. */
  function WithStatus(s: seq<Invoice>, id: InvoiceId, status: Status): (r: seq<Invoice>)
    ensures |r| == |s|
    ensures forall i | 0 <= i < |s| :: r[i] == if s[i].id == id then s[i].(status := status) else s[i]
  {
    if s == [] then [] else [if s[0].id == id then s[0].(status := status) else s[0]] + WithStatus(s[1..], id, status)
  }

  /**
   * One click: nothing happens for a missing or scheduled row; otherwise the store is
   * asked to write the new status, and the list follows only when that succeeds.
   */
  function Toggle(shown: seq<Invoice>, db: Db, id: InvoiceId, fault: Option<string>): (r: (seq<Invoice>, Db))
  {
    var current := Find(shown, id);
    if current.None? || current.value.status == Programada then (shown, db)
    else
      var status := ToggledStatus(current.value.status).value;
      var (db', outcome) := UpdateInvoiceStatus(db, id, status, fault);
      if outcome.Fail? then (shown, db') else (WithStatus(shown, id, status), db')
  }

  predicate DistinctShownIds(s: seq<Invoice>) {
    forall i, j | 0 <= i < j < |s| :: s[i].id != s[j].id
  }

  /**
   * A click changes only the status of the clicked row, in the list and in the store:
   * a missing or scheduled row changes nothing, a store error leaves both as they were,
   * and otherwise the stored row takes the other status.
   */
  lemma ToggleEffect(shown: seq<Invoice>, db: Db, id: InvoiceId, fault: Option<string>)
    ensures var (shown', db') := Toggle(shown, db, id, fault);
      && |shown'| == |shown| && db'.logs == db.logs && db'.rows.Keys == db.rows.Keys
      && SameRowsExcept(db.rows, db'.rows, id)
      && (forall i | 0 <= i < |shown| :: shown'[i] == shown[i].(status := shown'[i].status))
      && (forall i | 0 <= i < |shown| && shown[i].id != id :: shown'[i] == shown[i])
      && (Find(shown, id).None? || Find(shown, id).value.status == Programada ==> shown' == shown && db' == db)
      && (fault.Some? ==> shown' == shown && db' == db)
      && (id in db.rows && fault.None? && Find(shown, id).Some? && Find(shown, id).value.status != Programada ==>
            db'.rows[id] == db.rows[id].(status := Some(ToggledStatus(Find(shown, id).value.status).value)))
  {
  }

  /** After `WithStatus`, the row found for that id is the one found before, with the new status. */
  lemma {:induction false} FindWithStatus(s: seq<Invoice>, id: InvoiceId, status: Status)
    ensures Find(WithStatus(s, id, status), id) ==
      if Find(s, id).Some? then Some(Find(s, id).value.(status := status)) else None
  {
    if s != [] {
      var w := WithStatus(s, id, status);
      assert w[1..] == WithStatus(s[1..], id, status);
      FindWithStatus(s[1..], id, status);
    }
  }

  /**
   * After a successful click the stored row, read back by the next load, shows the
   * same status as the clicked row now does.
   */
  lemma ToggleAgreesWithReload(shown: seq<Invoice>, db: Db, id: InvoiceId, todayUtc: Date)
    requires Find(shown, id).Some? && Find(shown, id).value.status != Programada
    requires id in db.rows && RealTimestamps(db.rows[id])
    ensures var (shown', db') := Toggle(shown, db, id, None);
      && Find(shown', id).Some?
      && ConvertScheduledToInvoice(db'.rows[id], todayUtc).status == Find(shown', id).value.status
      && Find(shown', id).value.status == ToggledStatus(Find(shown, id).value.status).value
  {
    FindWithStatus(shown, id, ToggledStatus(Find(shown, id).value.status).value);
  }

  /** Without a store error, a click on a sent invoice gives every row with that id the other status. */
  lemma ToggleWithoutFault(shown: seq<Invoice>, db: Db, id: InvoiceId)
    requires Find(shown, id).Some? && Find(shown, id).value.status != Programada
    ensures Toggle(shown, db, id, None).0 == WithStatus(shown, id, ToggledStatus(Find(shown, id).value.status).value)
  {
  }

  /** Writing back the status every row with that id had undoes any earlier write. */
  lemma WithStatusRestores(s: seq<Invoice>, id: InvoiceId, other: Status, status: Status)
    requires forall i | 0 <= i < |s| && s[i].id == id :: s[i].status == status
    ensures WithStatus(WithStatus(s, id, other), id, status) == s
  {
    var w := WithStatus(WithStatus(s, id, other), id, status);
    assert forall i | 0 <= i < |s| :: w[i] == s[i];
  }

  /** With distinct ids and no errors, two clicks on a sent invoice restore the list. */
  lemma ToggleTwiceRestores(shown: seq<Invoice>, db: Db, id: InvoiceId)
    requires DistinctShownIds(shown)
    requires Find(shown, id).Some? && Find(shown, id).value.status != Programada
    ensures Toggle(Toggle(shown, db, id, None).0, Toggle(shown, db, id, None).1, id, None).0 == shown
  {
    var current := Find(shown, id).value;
    var once := ToggledStatus(current.status).value;
    ToggledStatusInvolution(current.status);
    ToggleWithoutFault(shown, db, id);
    var shown1 := WithStatus(shown, id, once);
    FindWithStatus(shown, id, once);
    ToggleWithoutFault(shown1, Toggle(shown, db, id, None).1, id);
    var i :| 0 <= i < |shown| && shown[i] == current && shown[i].id == id
             && forall j | 0 <= j < i :: shown[j].id != id;
    forall k | 0 <= k < |shown| && shown[k].id == id ensures shown[k].status == current.status {
      assert k == i;
    }
    WithStatusRestores(shown, id, once, current.status);
  }

  // ---------------------------------------------------------------------------
  // The page

  class DashboardPage {
    /** The rows the table shows. */
    var invoices: seq<Invoice>

    constructor ()
      ensures invoices == []
    {
      invoices := [];
    }

    /**
     * `loadInvoices` (app/page.tsx:119-148) given the query's answer: on an error the
     * table keeps its rows; otherwise it shows every row converted, latest first.
     */
    method LoadInvoices(answer: Result<seq<ScheduledInvoice>, string>, todayUtc: Date)
      requires answer.Success? ==> forall i | 0 <= i < |answer.value| :: RealTimestamps(answer.value[i])
      modifies this
      ensures answer.Failure? ==> invoices == old(invoices)
      ensures answer.Success? ==> invoices == SortByDateDesc(ConvertAll(answer.value, todayUtc))
      ensures answer.Success? ==> SortedDesc(invoices) && multiset(invoices) == multiset(ConvertAll(answer.value, todayUtc))
    {
      if answer.Failure? {
        return;
      }
      var converted := ConvertAll(answer.value, todayUtc);
      SortByDateDescCorrect(converted);
      invoices := SortByDateDesc(converted);
    }

    /** `toggleInvoiceStatus` (app/page.tsx:156-189) against the store. */
    method ToggleInvoiceStatus(id: InvoiceId, store: Store.InvoiceStore, fault: Option<string>)
      requires store.Valid()
      modifies this, store
      ensures store.Valid()
      ensures (invoices, store.State()) == Toggle(old(invoices), old(store.State()), id, fault)
    {
      var current := Find(invoices, id);
      if current.None? || current.value.status == Programada {
        return;
      }
      var status := ToggledStatus(current.value.status).value;
      var outcome := store.UpdateInvoiceStatus(id, status, fault);
      if outcome.Fail? {
        return;
      }
      invoices := WithStatus(invoices, id, status);
    }
  }
}
