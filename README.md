# invoice-me: recurring invoices, modelled in Dafny

invoice-me is a small Next.js application for sending recurring invoices by email.
A user schedules an invoice with a cadence (monthly on a given day, or biweekly on
the 1st or the 16th). A daily cron endpoint then finds the invoices that are due and,
for each one:

- stores a history copy;
- mails the invoice;
- moves `next_send_date` forward;
- writes an email log row.

A dashboard lists invoices and lets the user mark sent ones as paid.

This project models the core of that application and proves properties of it:

- **`Calendar`** (calendar.dfy): the next-send-date calculator, over a Gregorian
  calendar. It reproduces JavaScript's `setMonth`/`setDate` overflow exactly, and the
  store runs it as written. The calculator the code's comments intend is defined
  beside it, with its own properties.
- **`Records`** (records.dfy): the two tables (`scheduled_invoices`, `email_logs`).
  Also the outside world as oracles: the mail gateway's answer and each database
  call's error.
- **`StoreOps`** (store_ops.dfy): every operation of `SupabaseDatabaseManager` as a
  function from one database value to the next.
- **`Store`** (store.dfy): the same manager as a class whose fields are the two
  tables. Each method is proved equal to its `StoreOps` function. The listing queries
  are a loop proved to return exactly the selected rows, ordered by
  `next_send_date`.
- **`CronSweep`** (cron_sweep.dfy): the cron endpoint. This covers its authorisation,
  the per-invoice step, the loop as a fold with its counters, and what one call does
  to the store.
- **`Scheduler`** (scheduler.dfy): the older in-process `SchedulerService`. This is
  its timer bookkeeping and its sweep, which writes no history copy.
- **`JsText`** (js_text.dfy): the JavaScript text conversions the handlers rely on.
  These are `parseInt`, `String(n)`, and the digit filter `replace(/\D/g, '')`.
- **`Requests`** (requests.dfy): the schedule and send-now endpoints. This covers the
  guard chains with their exact messages and the email pattern. The pattern is given
  as a language and proved equal to an index-based test.
- **`Dashboard`** (dashboard.dfy): the page's row conversion, its newest-first stable
  sort, and the paid/pending toggle. The page is a class whose state is the list
  it shows.
- **`Currency`** (currency.dfy): the amount field's format and parse helpers.

Some things are parameters rather than computed:

- **"Now" and "today"** are passed in. The calendar date they carry is the one the
  code computes (Bogotá time where the code converts).
- **The mail gateway** is an oracle `nat -> Delivery`, indexed by position in the due
  list.
- **Database errors** are oracles: an `Option<string>` per call, and a flag per log
  insert.

Where the code and its description disagree, the model follows the code:

- **Biweekly, 2024-03-01, day 1.** The next send date is 2024-04-01, not 2024-03-16
  (`Calendar.BiweeklyFirstHalfExample`). The "already passed" branch is never
  reached for admitted days (`Calendar.NextSendDateIsLater`).
- **What the cron mails.** The cron endpoint mails the original scheduled invoice, not
  its history copy.
- **Send-now writes nothing.** It writes no row and no log (`Requests.SendNowPost`
  takes no store).
- **NaN monthly day.** A monthly request whose day is not a number passes every guard,
  because both comparisons with NaN are false. It is then answered 500 with nothing
  stored (`Requests.NaNMonthlyDayIsServerError`).
- **Unset `CRON_SECRET`.** With the secret unset, the cron endpoint accepts the literal
  header `Bearer undefined` (`CronSweep.UnsetSecretAcceptsUndefined`).
- **Two status vocabularies.** lib/data.ts:3 declares the dashboard statuses as
  "Pagado" | "En Proceso" | "Sin Pago". The page and the store use 'Programada',
  'Pendiente' and 'Pagada', and the model uses those.
- **History dates near midnight.** History copies are timestamped with Bogotá wall
  time, and the page converts `created_at` to Bogotá time again. On a UTC host, a
  copy made before 05:00 is therefore shown on the previous day
  (`Dashboard.HistoryRowShowsSendDay`).

## Model

| member | source | states |
|---|---|---|
| Calendar.MoveToNextMonth | lib/database.ts:216 | `setMonth(getMonth() + 1)` keeps the day when next month has it, and otherwise overflows into the month after. |
| Calendar.MonthlyNextSendDate | lib/database.ts:214-222 | As written, monthly with day 1..31: the date is in next month, or the month after when today's day overflows next month. It is on the cut-off day or that month's last day, strictly after today. |
| Calendar.BiweeklyNextSendDate | lib/database.ts:223-234 | As written, biweekly with any day: day 1 of the target month when the day is 1, and day 16 otherwise. The date is strictly after today. |
| Calendar.NextSendDateIsLater | lib/database.ts:236-250 | As written, for every admitted cadence and day the date is after today, so the "already passed" branch never fires. |
| Calendar.RolloverWithDayZero | lib/database.ts:236-239 | With day 0 the rollover branch is reached: the candidate 2023-12-31 becomes 2024-01-31. |
| Calendar.LeapYearClampExample | lib/database.ts:219-222 | Monthly day 31 from 2024-01-20 is clamped to 2024-02-29. |
| Calendar.BiweeklyFirstHalfExample | lib/database.ts:225-228 | Biweekly day 1 from 2024-03-01 gives 2024-04-01. |
| Calendar.MonthlySkipsFebruary | lib/database.ts:216-222 | As written, monthly day 31 from 2024-01-31 gives 2024-03-31; the corrected calculator gives 2024-02-29. |
| Calendar.BiweeklySkipsFebruary | lib/database.ts:230-232 | As written, biweekly day 16 from 2024-01-31 gives 2024-03-16; the corrected calculator gives 2024-02-16. |
| Calendar.IntendedMonthlyNextSendDate | lib/database.ts:214-222 | Corrected monthly: always next month, on the cut-off day or that month's last day, after today. |
| Calendar.IntendedBiweeklyNextSendDate | lib/database.ts:223-234 | Corrected biweekly: always next month, on day 1 or 16, after today. |
| Calendar.IntendedNextSendDateIsLater | lib/database.ts:236-250 | The corrected date is after today for every admitted cadence and day. |
| Calendar.CalculatorsAgree | lib/database.ts:207-255 | The two calculators agree for every admitted value whenever next month has today's day. |
| Calendar.NextSendDateOf | lib/database.ts:207-255 | The store's calculator fails ("Invalid time value") exactly for a NaN day with monthly cadence. Otherwise it is the calculator as written, on the stored day, or on day 16 for a biweekly row with a NaN day. |
| StoreOps.Insert | lib/database.ts:13-27 | An insert gets a fresh id not in the table, keeps the other rows, and keeps the table well formed. |
| StoreOps.CreateScheduledInvoice | lib/database.ts:5-35 | Fails, changing nothing, exactly when the calculator or the insert fails. Otherwise adds one row with the given fields, that date, and status 'Programada' if active, else 'Pendiente'. |
| StoreOps.NewScheduleNotDueToday | lib/database.ts:6 | A row created with an admitted day is not due on its creation day. |
| StoreOps.UpdateRejection | lib/database.ts:89-121 | The error `updateLastSent` throws for a stored row: the fetch error first; none exactly when the fetch, the calculator and the write all succeed. |
| StoreOps.UpdateLastSent | lib/database.ts:89-121 | Succeeds exactly when the fetch finds the row, the calculator succeeds and the write succeeds. A failure carries the error of `StoreOps.UpdateRejection` and changes nothing. Only `last_sent` and `next_send_date` of that row change. A missing id is the `.single()` fetch error. |
| StoreOps.AdvancedLeavesDue | lib/database.ts:106-115 | After a send with an admitted day, the row is no longer selected by the due query for today. |
| StoreOps.CreateInvoiceHistoryRecord | lib/database.ts:124-154 | Adds exactly one inactive 'Pendiente' copy under a fresh id, with the original's fields and `last_sent`, `created_at` and next send date now. An error changes nothing and carries the prefixed message. |
| StoreOps.CreateRetroactiveHistoryRecord | lib/database.ts:157-189 | Adds one inactive 'Pendiente' copy under a fresh id, with the original's email, amount, cadence, day and concept, next send date `specificDate`, and `last_sent` and `created_at` at noon in Bogotá of that day. The table stays well formed. An error changes nothing and carries the prefixed message. |
| StoreOps.ErrorColumn | lib/database.ts:198 | `errorMessage \|\| null`: an absent or empty message is stored as null. |
| StoreOps.LogEmailSent | lib/database.ts:191-205 | Appends one log row, or nothing when the insert fails. Never touches the rows. |
| StoreOps.DeactivateScheduledInvoice | lib/database.ts:257-267 | Only `is_active` of that row becomes false. A missing id is no error. |
| StoreOps.UpdateInvoiceStatus | lib/database.ts:269-279 | Only `status` of that row changes. A missing id is no error. |
| StoreOps.DeleteInvoice | lib/database.ts:282-294 | Removes exactly that row. Logs and other rows are unchanged. |
| StoreOps.HistoryRollbackRestoresRows | app/api/cron/process-invoices/route.ts:39-64 | Inserting the history copy and deleting it again leaves the rows as they were. |
| Store.InvoiceStore.Insert | lib/database.ts:13-27 | The store's new tables are `StoreOps.Insert` of the old ones. |
| Store.InvoiceStore.CreateScheduledInvoice | lib/database.ts:5-35 | New tables and answer are those of `StoreOps.CreateScheduledInvoice`. |
| Store.InvoiceStore.Select | lib/database.ts:73-78 | The loop returns exactly the selected rows, each once, as stored, ordered by `next_send_date` ascending. |
| Store.InvoiceStore.GetActiveScheduledInvoices | lib/database.ts:37-50 | Fails exactly on a query error, with the prefixed message. Otherwise lists every active row by next send date. |
| Store.InvoiceStore.GetInvoicesDueToday | lib/database.ts:67-87 | Fails exactly on a query error. Otherwise lists every active row due today or earlier, by next send date. |
| Store.InvoiceStore.UpdateLastSent | lib/database.ts:89-121 | New tables and outcome are those of `StoreOps.UpdateLastSent`. |
| Store.InvoiceStore.CreateInvoiceHistoryRecord | lib/database.ts:124-154 | New tables and answer are those of `StoreOps.CreateInvoiceHistoryRecord`. |
| Store.InvoiceStore.CreateRetroactiveHistoryRecord | lib/database.ts:157-189 | New tables and answer are those of `StoreOps.CreateRetroactiveHistoryRecord`. |
| Store.InvoiceStore.LogEmailSent | lib/database.ts:191-205 | New tables are those of `StoreOps.LogEmailSent`. |
| Store.InvoiceStore.DeactivateScheduledInvoice | lib/database.ts:257-267 | New tables and outcome are those of `StoreOps.DeactivateScheduledInvoice`. |
| Store.InvoiceStore.UpdateInvoiceStatus | lib/database.ts:269-279 | New tables and outcome are those of `StoreOps.UpdateInvoiceStatus`. |
| Store.InvoiceStore.DeleteInvoice | lib/database.ts:282-294 | New tables and outcome are those of `StoreOps.DeleteInvoice`. |
| CronSweep.MissingHeaderRefused | app/api/cron/process-invoices/route.ts:8-11 | A request without an Authorization header is refused, whatever the secret. |
| CronSweep.OnlyBearerSecretAccepted | app/api/cron/process-invoices/route.ts:9 | With the secret set, exactly the header `Bearer <secret>` is accepted. |
| CronSweep.UnsetSecretAcceptsUndefined | app/api/cron/process-invoices/route.ts:9 | With the secret unset, `Bearer undefined` is accepted and `Bearer ` is not. |
| CronSweep.Caught | app/api/cron/process-invoices/route.ts:82-100 | A thrown error leaves the rows, logs one failure row with its message (unless that insert fails), and reports an error result. |
| CronSweep.ProcessOneEffect | app/api/cron/process-invoices/route.ts:35-101 | One iteration advances the original row exactly when history, delivery, fetch, calculator and update all succeed, and otherwise leaves it. Its snapshot, an inactive 'Pendiente' copy under the next id, is kept unless the history insert fails or the gateway refuses and the delete succeeds; then the rows are as before. The result's error is `CronSweep.StepError`: the gateway's `result.error` after a rollback, otherwise the message the failing store call threw. The log gains exactly its row unless that insert fails: a success, or a failure carrying that error. |
| CronSweep.StepError | app/api/cron/process-invoices/route.ts:39-100 | The error an iteration reports is none exactly on success, and the gateway's `result.error` when the copy is rolled back. Otherwise it is the thrown message: the history insert's error, what `updateLastSent` throws (`StoreOps.UpdateRejection`), or the delete's error. |
| CronSweep.Sweep | app/api/cron/process-invoices/route.ts:34-102 | One result per due invoice, in order, with its id, email and concept. The tables stay well formed. |
| CronSweep.CountsAddUp | app/api/cron/process-invoices/route.ts:29-111 | `successful + errors == processed`. |
| CronSweep.SweepOutcome | app/api/cron/process-invoices/route.ts:34-102 | Over a due listing, the sweep: advances each due row exactly when its iteration succeeds; changes no other row; adds only snapshots of due invoices (inactive, 'Pendiente', dated today), one kept per success, and as many as the iterations that keep theirs; appends exactly each iteration's log row, in the order of the listing; each result carries its iteration's `CronSweep.StepError`. |
| CronSweep.CopiedFrom | app/api/cron/process-invoices/route.ts:39 | A new row the sweep leaves is the history copy of one of the due invoices, differing only in its id. |
| CronSweep.CleanSweepClearsDue | app/api/cron/process-invoices/route.ts:16-102 | With no failures and admitted days, every result succeeds and nothing is due any more, so a second run on the same day sends nothing. |
| CronSweep.ProcessInvoice | app/api/cron/process-invoices/route.ts:35-101 | The store's new tables and the pushed result are those of one iteration. |
| CronSweep.ProcessAll | app/api/cron/process-invoices/route.ts:29-102 | The loop's tables and results are the sweep's, and the two counters are the counts of successes and errors. |
| CronSweep.Get | app/api/cron/process-invoices/route.ts:5-125 | 401 with no change when unauthorised. 500 with the prefixed message on a query error. `processed: 0` with no change when nothing is due. Otherwise the sweep over today's listing, with its counts. |
| CronSweep.Post | app/api/cron/process-invoices/route.ts:128-130 | POST answers and acts exactly as GET. |
| Scheduler.LegacyProcessOneEffect | lib/scheduler.ts:69-100 | One iteration advances the row exactly when delivery, fetch, calculator and update succeed. It adds or removes no row, and the log gains exactly its `Scheduler.LegacyStepLog` row. |
| Scheduler.LegacyStepLog | lib/scheduler.ts:75-99 | At most one log row, about the invoice: a success exactly when the iteration succeeds, otherwise a failure carrying the gateway's `result.error` or the message `updateLastSent` threw. |
| Scheduler.CronAgreesWithLegacy | lib/scheduler.ts:73-78 | When the history copy is written, the cron iteration and the scheduler iteration leave the original row in the same state. |
| Scheduler.LegacySweep | lib/scheduler.ts:68-101 | The scheduler's loop keeps the tables well formed. |
| Scheduler.LegacySweepOutcome | lib/scheduler.ts:68-101 | Over a due listing: each due row is advanced exactly on success; no other row changes; no row is added; the log gains exactly each iteration's log row, in the order of the listing. |
| Scheduler.LegacyHandledOutcome | lib/scheduler.ts:54-108 | A run whose query succeeds ends in the state `LegacySweepOutcome` describes. |
| Scheduler.SchedulerService.constructor | lib/scheduler.ts:5-6 | A new scheduler is stopped and holds no interval. |
| Scheduler.SchedulerService.Status | lib/scheduler.ts:117-122 | `activeIntervals` is 1 while running and 0 when stopped. |
| Scheduler.SchedulerService.ProcessScheduledInvoices | lib/scheduler.ts:54-108 | A query error is swallowed and changes nothing. Otherwise the tables become the scheduler's sweep over today's listing. |
| Scheduler.SchedulerService.ProcessInvoice | lib/scheduler.ts:69-100 | The store's new tables are those of one scheduler iteration. |
| Scheduler.SchedulerService.Start | lib/scheduler.ts:9-31 | A second start changes nothing. Otherwise it registers exactly the 'main' interval and makes one run. |
| Scheduler.SchedulerService.Stop | lib/scheduler.ts:34-51 | Clears exactly the intervals it held and leaves the scheduler stopped. Stopping a stopped scheduler clears nothing. |
| Scheduler.SchedulerService.ForceProcess | lib/scheduler.ts:111-114 | One run, whether running or not. |
| Scheduler.SchedulerService.ScheduleImmediateInvoice | lib/scheduler.ts:125-149 | A failed insert changes nothing and runs nothing. Otherwise it stores the active invoice and forces one run. For an admitted day that run does not send the new invoice. |
| JsText.TrimStart | app/api/invoices/schedule/route.ts:28 | What `parseInt` reads after skipping white space is never longer than the input and does not start with white space. |
| JsText.TrimStartDropsSpace | app/api/invoices/schedule/route.ts:28 | The skipped part is a prefix of the input made only of JavaScript white space. |
| JsText.DigitPrefix | app/api/invoices/schedule/route.ts:28 | The digits `parseInt` reads are all digits of the radix. |
| JsText.DigitPrefixIsLongest | app/api/invoices/schedule/route.ts:28 | They are a prefix of the text and the longest one: the next character is not a digit. |
| JsText.ValueOfNatToDecimal | app/api/invoices/schedule/route.ts:28 | Reading back the decimal text of `n` gives `n`. |
| JsText.ParseIntOfDigits | lib/data.ts:46 | `parseInt` of a non-empty digit string is its decimal value. |
| JsText.ParseIntOfNumber | app/api/invoices/schedule/route.ts:28 | `parseInt(String(n)) == n` for every integer, so a numeric amount is taken as it is. |
| JsText.ParseIntDropsFraction | app/api/invoices/schedule/route.ts:28 | `parseInt("12.9")` is 12. |
| JsText.ParseIntSkipsSpaceAndUnit | app/api/invoices/schedule/route.ts:28 | `parseInt("  42px")` is 42. |
| JsText.ParseIntReadsHex | app/api/invoices/schedule/route.ts:28 | `parseInt("0x1A")` is 26. |
| JsText.ParseIntNaN | app/api/invoices/schedule/route.ts:29 | `parseInt("abc")` and `parseInt("")` are NaN. |
| JsText.DigitsOf | lib/data.ts:33 | The digit filter keeps only decimal digits and never lengthens the text. |
| JsText.DigitsOfConcat | lib/data.ts:45 | The digit filter distributes over concatenation. |
| JsText.ValueOfLeadingZero | lib/data.ts:46 | A leading zero does not change a digit string's value. |
| Requests.MatchesEmail | app/api/invoices/schedule/route.ts:19-20 | The index-based test accepts exactly the language of `/^[^\s@]+@[^\s@]+\.[^\s@]+$/`. |
| Requests.EmailTestIsPattern | app/api/invoices/schedule/route.ts:19 | The test and the pattern's language agree in both directions. |
| Requests.EmailOnlyFromString | app/api/invoices/schedule/route.ts:20 | Only a JSON string can pass the email test. |
| Requests.FrequencyOf | app/api/invoices/schedule/route.ts:37 | `includes` admits exactly the strings "monthly" and "biweekly". |
| Requests.ScheduleFirstFailureWins | app/api/invoices/schedule/route.ts:11-57 | Each 400 message is answered exactly when every earlier guard passes and its own fails: fields, then email, then amount, then frequency, then day. |
| Requests.ScheduleAdmits | app/api/invoices/schedule/route.ts:11-57 | A request is admitted exactly when every guard passes. |
| Requests.AdmittedFields | app/api/invoices/schedule/route.ts:28-64 | An admitted request has a string email of the pattern, a positive parsed amount, and a parsed day obeying its cadence's rule. |
| Requests.NumericAmountKept | app/api/invoices/schedule/route.ts:28-29 | A numeric amount passes exactly when it is positive. |
| Requests.NaNDayPassesMonthlyGuard | app/api/invoices/schedule/route.ts:45-46 | A monthly request with day "abc" passes every guard, with a NaN day. |
| Requests.SendNowGuardsMatchSchedule | app/api/invoices/send-now/route.ts:12-43 | The send-now guards fail with the schedule guards' message whenever they fail. They admit the same fields whenever the schedule guards admit. Only the day check is missing. |
| Requests.SchedulePostOutcome | app/api/invoices/schedule/route.ts:4-82 | A rejected or failed request writes nothing. An accepted one adds exactly one active 'Programada' row with the request's email, cadence and concept and the parsed amount and day, due after today. |
| Requests.NaNMonthlyDayIsServerError | app/api/invoices/schedule/route.ts:60-81 | A monthly NaN day is answered 500 with nothing stored. |
| Requests.ScheduleGet | app/api/invoices/schedule/route.ts:84-100 | 500 exactly on a query error. Otherwise every active row. |
| Requests.TemporaryInvoice | app/api/invoices/send-now/route.ts:47-62 | The mailed invoice has id `temp-<millis>`, is active, has never been sent, and is due today whatever its day. |
| Requests.SendNowOutcome | app/api/invoices/send-now/route.ts:5-92 | Success exactly when the guards pass and the gateway accepts. A gateway failure answers its error, or the fixed text when the error is empty. The mailed invoice is the temporary one. |
| Dashboard.BogotaDate | app/page.tsx:92-97 | The Bogotá day of a UTC instant: the same day from 05:00 UTC, otherwise the day before, month boundaries included. |
| Dashboard.ConvertScheduledToInvoice | app/page.tsx:79-116 | The table row keeps the stored id, email, amount, cadence and concept. |
| Dashboard.ScheduledRowShowsNextSend | app/page.tsx:81-89 | An active row without another status is shown as 'Programada' on its next send date. |
| Dashboard.HistoryRowShowsSendDay | app/page.tsx:87-99 | A cron history copy is shown as 'Pendiente' on the Bogotá day of its timestamp, never later than its UTC day. |
| Dashboard.InactiveRowShowsPending | app/page.tsx:81-82 | An inactive row with no stored status is shown as 'Pendiente'. |
| Dashboard.ConvertAll | app/page.tsx:132 | Every fetched row is converted, in order. |
| Dashboard.InsertDescSorted | app/page.tsx:136-140 | Inserting into a newest-first list keeps it newest-first and adds exactly that row. |
| Dashboard.SortByDateDescCorrect | app/page.tsx:136-140 | The loaded list is newest first and is a permutation of the converted rows. |
| Dashboard.SortByDateDescStable | app/page.tsx:136-140 | Rows of the same date keep the order the query returned them in. |
| Dashboard.Find | app/page.tsx:159-160 | The first row with that id, or none exactly when no row has it. |
| Dashboard.ToggledStatus | app/page.tsx:164-170 | 'Programada' cannot be toggled. Every other status becomes a different status that is not 'Programada'. |
| Dashboard.ToggledStatusInvolution | app/page.tsx:170 | Toggling twice restores a toggleable status. |
| Dashboard.WithStatus | app/page.tsx:176-183 | Exactly the rows with that id take the new status. |
| Dashboard.ToggleEffect | app/page.tsx:156-189 | A click changes only the clicked row's status, in the list and in the store. A missing or 'Programada' row, or a store error, changes nothing. Otherwise the stored row takes the toggled status. |
| Dashboard.ToggleAgreesWithReload | app/page.tsx:170-183 | After a successful click, the stored row, once reloaded, shows the same status as the list. |
| Dashboard.ToggleTwiceRestores | app/page.tsx:156-189 | With distinct ids and no errors, two clicks restore the list. |
| Dashboard.DashboardPage.LoadInvoices | app/page.tsx:119-148 | A query error keeps the rows. Otherwise the page shows every converted row, newest first, as a permutation. |
| Dashboard.DashboardPage.ToggleInvoiceStatus | app/page.tsx:156-189 | The page's list and the store change exactly as `Toggle` says. |
| Currency.ParseCurrencyValue | lib/data.ts:43-47 | 0 when there is no digit. Otherwise the decimal value of the digits, which is what `parseInt` reads from them. Never negative. |
| Currency.FormatCurrencyInput | lib/data.ts:31-40 | Empty exactly when the input has no digit. |
| Currency.DigitsOfGroup | lib/data.ts:39 | Grouping only inserts separators: the digits of the grouped text are the digits grouped. |
| Currency.FormatRoundTrip | lib/data.ts:31-47 | `parseCurrencyValue(formatCurrencyInput(s)) == parseCurrencyValue(s)`. |
| Currency.FormatIdempotent | lib/data.ts:31-40 | Formatting a formatted amount changes nothing. |
| Currency.OnlyDigitsMatter | lib/data.ts:33-45 | Inputs with the same digits parse and format alike. |
| Currency.LeadingZeroIgnored | lib/data.ts:38-46 | A leading zero changes neither the value nor the formatting. |
| Currency.GroupSevenDigits | lib/data.ts:39 | "1234567" is written "1.234.567". |

## Findings

| source | as written | input that shows it | evidently intended | confidence | as-written member | corrected member |
|---|---|---|---|---|---|---|
| lib/database.ts:216-222 | The month is advanced before the day is set. When next month lacks today's day, `setMonth` overflows into the month after, and the cadence skips a month. | Monthly, day 31, today 2024-01-31: next send date 2024-03-31. | The comment at lib/database.ts:219 says to use the last day of next month: 2024-02-29. | not executed | Calendar.MonthlySkipsFebruary | Calendar.IntendedMonthlyNextSendDate |
| lib/database.ts:230-232 | The same overflow in the biweekly branch. | Biweekly, day 16, today 2024-01-31: next send date 2024-03-16. | The second half of next month: 2024-02-16. | not executed | Calendar.BiweeklySkipsFebruary | Calendar.IntendedBiweeklyNextSendDate |

The store, the sweeps and the endpoints run the calculator as written
(`Calendar.NextSendDateOf`). The corrected calculator (`Calendar.IntendedNextSendDate`)
is defined beside it with its properties proved. `Calendar.CalculatorsAgree` proves
the two agree on days when next month has today's day.

## Left out

- **Timezones.** "Now" and "today" are inputs. The Bogotá conversions of
  lib/database.ts (69-71, 126-128, 209-210) are taken to give the calendar date the
  code intends. Only the page's `created_at` conversion is written out
  (`Dashboard.BogotaDate`, a fixed five-hour offset).
- **Email content and delivery.** lib/email-service.ts and lib/pdf-generator.ts are
  not part of this model. The gateway's answer is an input.
- **Timing.** The pacing sleeps, the `setInterval` callbacks and the module-level
  auto-start of lib/scheduler.ts (19-23, 155-160) are not modelled. Only the
  interval bookkeeping is.
- Scheduler.SchedulerService.Start: `start` fires its first run without awaiting it.
  The model runs it to completion inside `Start`.
- **Single clock reading.** Each sweep reads the clock once (one `now` for all
  iterations). The source reads it per call.
- **Listing order.** The order of rows with the same `next_send_date` is left to the
  database. `StoreOps.IsListing` admits every such order.
- **`getAllInvoices`** (lib/database.ts:53-65) is not modelled: no modelled code
  calls it.
- **JSON bodies.** Request bodies are modelled as five fields with no arrays and
  integer numbers only. A JSON array's `String` (for example `["a@b.co"]`) and
  fractional amounts are not covered. A body that cannot be destructured is `None`,
  answered 500.
- Requests.SchedulePost: a concept that is not a string is stored as its text form.
  The source passes the JSON value through unchanged.
- **Number precision.** `parseInt` is modelled without exponent forms and without
  float rounding past 2^53. The same holds for `String(n)`.
- Currency.FormatCurrencyInput: grouping writes a '.' before every three digits. The
  Spanish locale data's rule that leaves four-digit numbers ungrouped is not
  modelled.
- **`formatCurrency`** (lib/data.ts:21-28) is display-only `Intl` currency formatting
  and is not modelled.
- **The dashboard query** (app/page.tsx:122-124). Its answer is an input to
  `Dashboard.DashboardPage.LoadInvoices`. Its loading flag and the JSX are not
  modelled.
- **UI and other endpoints.** The UI components (components/*.tsx) and the
  email-configuration endpoint are not part of this model.
