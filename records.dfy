/**
 * The records of the invoice application (the `scheduled_invoices` and `email_logs`
 * tables, lib/database.types.ts:12-59) and the outside world the core talks to:
 * the delivery gateway and the failures of the database client, given as oracles.
 */
module Records {
  import opened Wrappers
  import opened Calendar

  /** The `status` column the code writes ('Programada' | 'Pendiente' | 'Pagada'). */
  datatype Status = Programada | Pendiente | Pagada

  /**
   * A row id: `Stored` for the ids the database assigns on insert, `Temp` for the
   * `temp-${Date.now()}` id of an invoice that is sent without being stored.
   */
  datatype InvoiceId = Stored(serial: nat) | Temp(millis: int)

  /** A timestamp: its calendar date (the part before 'T' of the ISO string) and the time of day. */
  datatype Instant = Instant(date: Date, millisOfDay: int)

  /**
   * A row of `scheduled_invoices`. `dueDateDay` is a JavaScript number that may be
   * NaN (`None`); `status` is absent on rows written before the column existed.
   */
  datatype ScheduledInvoice = ScheduledInvoice(
    id: InvoiceId,
    email: string,
    amount: int,
    frequency: Frequency,
    dueDateDay: Option<int>,
    concept: string,
    isActive: bool,
    createdAt: Option<Instant>,
    lastSent: Option<Instant>,
    nextSendDate: Date,
    status: Option<Status>)

  /** The `status` column of `email_logs` ('success' | 'failed'). */
  datatype LogStatus = LogSuccess | LogFailed

  /** A row of `email_logs`; `sent_at` is filled in by the database and left out. */
  datatype EmailLog = EmailLog(
    scheduledInvoiceId: InvoiceId,
    email: string,
    status: LogStatus,
    errorMessage: Option<string>)

  /** What `emailService.sendInvoiceEmail` resolves to: `{success: true}` or `{success: false, error}`; it never rejects. */
  datatype Delivery = Delivered | DeliveryFailed(error: string)

  /**
   * The database errors met while one due invoice is processed: `Some(message)` when
   * that call returns an error, and whether each of the two log inserts fails
   * (a failing log insert is swallowed, so it only decides whether the log row exists).
   */
  datatype Faults = Faults(
    history: Option<string>,
    fetch: Option<string>,
    update: Option<string>,
    delete: Option<string>,
    outcomeLog: bool,
    catchLog: bool)

  const NoFaults: Faults := Faults(None, None, None, None, false, false)

  /**
   * One sweep's outside world: the gateway's answer for the k-th due invoice, the
   * database errors while processing it, and whether the due-invoice query fails.
   */
  datatype Environment = Environment(
    deliver: nat -> Delivery,
    faults: nat -> Faults,
    queryFault: Option<string>)
}
