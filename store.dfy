/**
 * The invoice store (`SupabaseDatabaseManager`, lib/database.ts) as an object whose
 * two tables are fields: a map from id to `scheduled_invoices` row and the
 * append-only sequence of `email_logs` rows. Each method is proved against the
 * function of the same name in `StoreOps`; a database error is an input `fault`.
 */
module Store {
  import opened Wrappers
  import opened Calendar
  import opened Records
  import StoreOps

  class InvoiceStore {
    var rows: map<InvoiceId, ScheduledInvoice>
    var logs: seq<EmailLog>
    var nextSerial: nat

    function State(): StoreOps.Db
      reads this
    {
      StoreOps.Db(rows, logs, nextSerial)
    }

    ghost predicate Valid()
      reads this
    {
      StoreOps.WellFormed(State())
    }

    constructor ()
      ensures Valid() && rows == map[] && logs == [] && nextSerial == 0
    {
      rows, logs, nextSerial := map[], [], 0;
    }

    /** The database assigns the id of a new row. */
    method Insert(row: ScheduledInvoice) returns (id: InvoiceId)
      requires Valid()
      modifies this
      ensures Valid()
      ensures (State(), id) == StoreOps.Insert(old(State()), row)
    {
      id := Stored(nextSerial);
      rows := rows[id := row.(id := id)];
      nextSerial := nextSerial + 1;
    }

    /** `createScheduledInvoice` (lib/database.ts:5-35). */
    method CreateScheduledInvoice(input: StoreOps.NewInvoice, now: Instant, fault: Option<string>) returns (r: Result<InvoiceId, string>)
      requires Valid() && IsValid(now.date)
      modifies this
      ensures Valid()
      ensures (State(), r) == StoreOps.CreateScheduledInvoice(old(State()), input, now, fault)
    {
      var next := NextSendDateOf(input.frequency, input.dueDateDay, now.date);
      if next.Failure? {
        return Failure(next.error);
      }
      if fault.Some? {
        return Failure(StoreOps.CreateError + fault.value);
      }
      var status := if input.isActive then Programada else Pendiente;
      var id := Insert(ScheduledInvoice(Stored(0), input.email, input.amount, input.frequency, input.dueDateDay,
                                        input.concept, input.isActive, Some(now), input.lastSent, next.value, Some(status)));
      r := Success(id);
    }

    /** The rows a listing query selects, ordered by `next_send_date` ascending. */
    method Select(dueBy: Option<Date>) returns (list: seq<ScheduledInvoice>)
      requires Valid()
      ensures StoreOps.IsListing(rows, dueBy, list)
    {
      list := [];
      var pending := rows.Keys;
      while pending != {}
        invariant pending <= rows.Keys
        invariant forall i | 0 <= i < |list| ::
          list[i].id in rows && list[i].id !in pending && rows[list[i].id] == list[i] && StoreOps.Selected(list[i], dueBy)
        invariant forall id | id in rows && id !in pending && StoreOps.Selected(rows[id], dueBy) :: rows[id] in list
        invariant StoreOps.DistinctIds(list) && StoreOps.SortedByDate(list)
        decreases pending
      {
        var id :| id in pending;
        if StoreOps.Selected(rows[id], dueBy) {
          var x := rows[id];
          StoreOps.InsertByDateSorted(list, x);
          StoreOps.InsertByDateDistinct(list, x);
          StoreOps.InsertByDatePermutes(list, x);
          var longer := StoreOps.InsertByDate(list, x);
          forall i | 0 <= i < |longer| ensures longer[i] in list || longer[i] == x {
            StoreOps.InsertedFrom(list, x, longer[i]);
          }
          forall y | y in list || y == x ensures y in longer {
            assert y in multiset(longer);
          }
          list := longer;
        }
        pending := pending - {id};
      }
    }

    /** `getActiveScheduledInvoices` (lib/database.ts:37-50): every active row. */
    method GetActiveScheduledInvoices(fault: Option<string>) returns (r: Result<seq<ScheduledInvoice>, string>)
      requires Valid()
      ensures r.Failure? <==> fault.Some?
      ensures r.Failure? ==> r.error == "Error obteniendo facturas: " + fault.value
      ensures r.Success? ==> StoreOps.IsListing(rows, None, r.value)
    {
      if fault.Some? {
        return Failure("Error obteniendo facturas: " + fault.value);
      }
      var list := Select(None);
      r := Success(list);
    }

    /** `getInvoicesDueToday` (lib/database.ts:67-87): active rows whose next send date is today or earlier. */
    method GetInvoicesDueToday(today: Date, fault: Option<string>) returns (r: Result<seq<ScheduledInvoice>, string>)
      requires Valid()
      ensures r.Failure? <==> fault.Some?
      ensures r.Failure? ==> r.error == "Error obteniendo facturas vencidas: " + fault.value
      ensures r.Success? ==> StoreOps.IsListing(rows, Some(today), r.value)
    {
      if fault.Some? {
        return Failure("Error obteniendo facturas vencidas: " + fault.value);
      }
      var list := Select(Some(today));
      r := Success(list);
    }

    /** `updateLastSent` (lib/database.ts:89-121). */
    method UpdateLastSent(id: InvoiceId, now: Instant, fetchFault: Option<string>, updateFault: Option<string>) returns (r: Outcome<string>)
      requires Valid() && IsValid(now.date)
      modifies this
      ensures Valid()
      ensures (State(), r) == StoreOps.UpdateLastSent(old(State()), id, now, fetchFault, updateFault)
    {
      if fetchFault.Some? {
        return Fail(StoreOps.FetchError + fetchFault.value);
      }
      if id !in rows {
        return Fail(StoreOps.FetchError + StoreOps.NoRowsMessage);
      }
      var inv := rows[id];
      var next := NextSendDateOf(inv.frequency, inv.dueDateDay, now.date);
      if next.Failure? {
        return Fail(next.error);
      }
      if updateFault.Some? {
        return Fail(StoreOps.UpdateError + updateFault.value);
      }
      rows := rows[id := inv.(lastSent := Some(now), nextSendDate := next.value)];
      r := Pass;
    }

    /** `createInvoiceHistoryRecord` (lib/database.ts:124-154). */
    method CreateInvoiceHistoryRecord(original: ScheduledInvoice, now: Instant, fault: Option<string>) returns (r: Result<InvoiceId, string>)
      requires Valid()
      modifies this
      ensures Valid()
      ensures (State(), r) == StoreOps.CreateInvoiceHistoryRecord(old(State()), original, now, fault)
    {
      if fault.Some? {
        return Failure(StoreOps.HistoryError + fault.value);
      }
      var id := Insert(StoreOps.HistoryRow(original, now));
      r := Success(id);
    }

    /** `createRetroactiveHistoryRecord` (lib/database.ts:157-189). */
    method CreateRetroactiveHistoryRecord(original: ScheduledInvoice, specificDate: Date, fault: Option<string>) returns (r: Result<InvoiceId, string>)
      requires Valid()
      modifies this
      ensures Valid()
      ensures (State(), r) == StoreOps.CreateRetroactiveHistoryRecord(old(State()), original, specificDate, fault)
    {
      if fault.Some? {
        return Failure(StoreOps.RetroactiveError + fault.value);
      }
      var id := Insert(StoreOps.HistoryRow(original, StoreOps.NoonInBogota(specificDate)));
      r := Success(id);
    }

    /** `logEmailSent` (lib/database.ts:191-205): never fails. */
    method LogEmailSent(invoiceId: InvoiceId, email: string, status: LogStatus, errorMessage: Option<string>, fault: bool)
      requires Valid()
      modifies this
      ensures Valid()
      ensures State() == StoreOps.LogEmailSent(old(State()), invoiceId, email, status, errorMessage, fault)
    {
      if !fault {
        logs := logs + [EmailLog(invoiceId, email, status, StoreOps.ErrorColumn(errorMessage))];
      }
    }

    /** `deactivateScheduledInvoice` (lib/database.ts:257-267). */
    method DeactivateScheduledInvoice(id: InvoiceId, fault: Option<string>) returns (r: Outcome<string>)
      requires Valid()
      modifies this
      ensures Valid()
      ensures (State(), r) == StoreOps.DeactivateScheduledInvoice(old(State()), id, fault)
    {
      if fault.Some? {
        return Fail(StoreOps.DeactivateError + fault.value);
      }
      if id in rows {
        rows := rows[id := rows[id].(isActive := false)];
      }
      r := Pass;
    }

    /** `updateInvoiceStatus` (lib/database.ts:269-279). */
    method UpdateInvoiceStatus(id: InvoiceId, status: Status, fault: Option<string>) returns (r: Outcome<string>)
      requires Valid()
      modifies this
      ensures Valid()
      ensures (State(), r) == StoreOps.UpdateInvoiceStatus(old(State()), id, status, fault)
    {
      if fault.Some? {
        return Fail(StoreOps.StatusError + fault.value);
      }
      if id in rows {
        rows := rows[id := rows[id].(status := Some(status))];
      }
      r := Pass;
    }

    /** `deleteInvoice` (lib/database.ts:282-294). */
    method DeleteInvoice(id: InvoiceId, fault: Option<string>) returns (r: Outcome<string>)
      requires Valid()
      modifies this
      ensures Valid()
      ensures (State(), r) == StoreOps.DeleteInvoice(old(State()), id, fault)
    {
      if fault.Some? {
        return Fail(StoreOps.DeleteError + fault.value);
      }
      rows := rows - {id};
      r := Pass;
    }
  }
}
