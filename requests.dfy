/**
 * The two invoice endpoints: `POST /api/invoices/schedule` (app/api/invoices/schedule/route.ts),
 * which validates a request and stores an active scheduled invoice, `GET` on the same
 * route, which lists the active ones, and `POST /api/invoices/send-now`
 * (app/api/invoices/send-now/route.ts), which validates the same fields and mails a
 * temporary invoice without storing anything.
 */
module Requests {
  import opened Wrappers
  import opened Calendar
  import opened Records
  import opened StoreOps
  import opened JsText
  import Store

  /** A field of the parsed JSON body; `Absent` is a missing field (`undefined`). */
  datatype JsonValue = Absent | JNull | JBool(b: bool) | JNum(n: int) | JStr(s: string) | JObject

  /** JavaScript truthiness: `!v` is false. */
  predicate Truthy(v: JsonValue) {
    match v
    case Absent => false
    case JNull => false
    case JBool(b) => b
    case JNum(n) => n != 0
    case JStr(s) => s != ""
    case JObject => true
  }

  /** `String(v)`, which `regex.test` and `parseInt` apply to their argument. */
  function ToJsString(v: JsonValue): string {
    match v
    case Absent => "undefined"
    case JNull => "null"
    case JBool(b) => if b then "true" else "false"
    case JNum(n) => NumberToString(n)
    case JStr(s) => s
    case JObject => "[object Object]"
  }

  /** The fields destructured from the body. */
  datatype Body = Body(email: JsonValue, amount: JsonValue, frequency: JsonValue, dueDateDay: JsonValue, concept: JsonValue)

  // ---------------------------------------------------------------------------
  // The email pattern /^[^\s@]+@[^\s@]+\.[^\s@]+$/

  /** A character `[^\s@]` matches. */
  predicate PlainChar(c: char) {
    !IsJsWhitespace(c) && c != '@'
  }

  predicate Plain(t: string) {
    forall i | 0 <= i < |t| :: PlainChar(t[i])
  }

  /** The language of the pattern: non-empty plain local part, '@', plain domain, '.', plain suffix. */
  ghost predicate EmailPattern(s: string) {
    exists k, j | 0 < k && k + 1 < j < |s| - 1 ::
      s[k] == '@' && s[j] == '.' && Plain(s[..k]) && Plain(s[k + 1..j]) && Plain(s[j + 1..])
  }

  /** The position of the first `c` in `s`, or `|s|` when there is none. */
  function IndexOf(s: string, c: char): (k: nat)
    ensures k <= |s|
    ensures forall i | 0 <= i < k :: s[i] != c
    ensures k < |s| ==> s[k] == c
  {
    if s == [] then 0 else if s[0] == c then 0 else 1 + IndexOf(s[1..], c)
  }

  /**
   * The test the handlers run, written without a regex engine: the first '@' splits a
   * plain local part from a plain domain that has a '.' neither first nor last.
   */
  function MatchesEmail(s: string): (r: bool)
    ensures r <==> EmailPattern(s)
  {
    EmailTestIsPattern(s);
    EmailTest(s)
  }

  predicate EmailTest(s: string) {
    var k := IndexOf(s, '@');
    && 1 <= k < |s|
    && Plain(s[..k])
    && Plain(s[k + 1..])
    && 3 <= |s[k + 1..]|
    && IndexOf(s[k + 2..|s| - 1], '.') < |s[k + 2..|s| - 1]|
  }

  lemma EmailTestIsPattern(s: string)
    ensures EmailTest(s) <==> EmailPattern(s)
  {
    if EmailTest(s) {
      EmailTestGivesPattern(s);
    }
    if EmailPattern(s) {
      EmailPatternPassesTest(s);
    }
  }

  lemma EmailTestGivesPattern(s: string)
    requires EmailTest(s)
    ensures EmailPattern(s)
  {
    var k := IndexOf(s, '@');
    var r := s[k + 1..];
    var m := IndexOf(s[k + 2..|s| - 1], '.');
    var j := k + 2 + m;
    assert s[j] == '.';
    PlainSlice(r, 0, j - k - 1);
    PlainSlice(r, j - k, |r|);
    assert s[k + 1..j] == r[0..j - k - 1];
    assert s[j + 1..] == r[j - k..|r|];
  }

  /** A slice of a plain string is plain. */
  lemma PlainSlice(t: string, lo: nat, hi: nat)
    requires Plain(t) && lo <= hi <= |t|
    ensures Plain(t[lo..hi])
  {
    forall i | 0 <= i < hi - lo ensures PlainChar(t[lo..hi][i]) {
      assert t[lo..hi][i] == t[lo + i];
    }
  }

  lemma EmailPatternPassesTest(s: string)
    requires EmailPattern(s)
    ensures EmailTest(s)
  {
    var k, j :| 0 < k && k + 1 < j < |s| - 1 && s[k] == '@' && s[j] == '.'
                && Plain(s[..k]) && Plain(s[k + 1..j]) && Plain(s[j + 1..]);
    FirstAtSign(s, k);
    DomainPlain(s, k, j);
    DotInside(s, k, j);
  }

  /** The '@' that ends a plain local part is the first one. */
  lemma FirstAtSign(s: string, k: nat)
    requires k < |s| && s[k] == '@' && Plain(s[..k])
    ensures IndexOf(s, '@') == k
  {
    forall i | 0 <= i < k ensures s[i] != '@' {
      assert s[..k][i] == s[i];
    }
  }

  /** A plain domain, a '.' and a plain suffix make a plain text after the '@'. */
  lemma DomainPlain(s: string, k: nat, j: nat)
    requires k + 1 <= j < |s| && s[j] == '.' && Plain(s[k + 1..j]) && Plain(s[j + 1..])
    ensures Plain(s[k + 1..])
  {
    assert s[k + 1..] == s[k + 1..j] + ['.'] + s[j + 1..];
    PlainJoin(s[k + 1..j], s[j + 1..]);
  }

  /** A '.' strictly inside the domain is found by the test's search. */
  lemma DotInside(s: string, k: nat, j: nat)
    requires k + 1 < j < |s| - 1 && s[j] == '.'
    ensures IndexOf(s[k + 2..|s| - 1], '.') < |s[k + 2..|s| - 1]|
  {
    var mid := s[k + 2..|s| - 1];
    assert mid[j - k - 2] == '.';
  }

  /** Two plain strings joined by a '.' make a plain string. */
  lemma PlainJoin(a: string, b: string)
    requires Plain(a) && Plain(b)
    ensures Plain(a + ['.'] + b)
  {
    var t := a + ['.'] + b;
    forall i | 0 <= i < |t| ensures PlainChar(t[i]) {
      if i < |a| {
        assert t[i] == a[i];
      } else if i > |a| {
        assert t[i] == b[i - |a| - 1];
      }
    }
  }

  /** Only a string can pass the test: every other value's text has no '@'. */
  lemma EmailOnlyFromString(v: JsonValue)
    ensures MatchesEmail(ToJsString(v)) ==> v.JStr?
  {
    if !v.JStr? {
      NonStringHasNoAt(v);
      NoAtNoPattern(ToJsString(v));
    }
  }

  /** The text of a value other than a string (a number, a boolean, null, an object) holds no '@'. */
  lemma NonStringHasNoAt(v: JsonValue)
    requires !v.JStr?
    ensures forall i | 0 <= i < |ToJsString(v)| :: ToJsString(v)[i] != '@'
  {
    match v
    case JNum(n) =>
      var d := NatToDecimal(if n < 0 then -n else n);
      forall i | 0 <= i < |d| ensures d[i] != '@' {
        assert IsRadixDigit(d[i], 10);
      }
      if n < 0 {
        forall i | 0 <= i < |"-" + d| ensures ("-" + d)[i] != '@' {
          if i > 0 {
            assert ("-" + d)[i] == d[i - 1];
          }
        }
      }
    case _ =>
  }

  /** A text without an '@' does not match the pattern. */
  lemma NoAtNoPattern(s: string)
    requires forall i | 0 <= i < |s| :: s[i] != '@'
    ensures !EmailPattern(s)
  {
  }

  // ---------------------------------------------------------------------------
  // The guard chains

  const RequiredMessage: string := "Todos los campos son requeridos"
  const EmailMessage: string := "Formato de email inválido"
  const AmountMessage: string := "El monto debe ser un número mayor a 0"
  const FrequencyMessage: string := "Frecuencia debe ser \"monthly\" o \"biweekly\""
  const MonthlyDayMessage: string := "Para mensual, el día debe estar entre 1 y 31"
  const BiweeklyDayMessage: string := "Para quincenal, el día debe ser 1 o 16"
  const ServerErrorMessage: string := "Error interno del servidor"
  const SendFailedMessage: string := "Error enviando la factura por correo"

  /** `['monthly', 'biweekly'].includes(frequency)`: strict equality with one of the two strings. */
  function FrequencyOf(v: JsonValue): (r: Option<Frequency>)
    ensures r == Some(Monthly) <==> v == JStr("monthly")
    ensures r == Some(Biweekly) <==> v == JStr("biweekly")
  {
    if v == JStr("monthly") then Some(Monthly)
    else if v == JStr("biweekly") then Some(Biweekly)
    else None
  }

  predicate AllPresent(b: Body) {
    Truthy(b.email) && Truthy(b.amount) && Truthy(b.frequency) && Truthy(b.dueDateDay) && Truthy(b.concept)
  }

  /** What a request that passes the guards asks for: the parsed amount and the parsed (possibly NaN) day. */
  datatype Admitted = Admitted(email: string, amount: int, frequency: Frequency, dueDateDay: Option<int>, concept: string)

  /** The guards of schedule/route.ts:11-57, in order; the first that fails answers 400. */
  function ValidateSchedule(b: Body): (r: Result<Admitted, string>)
  {
    if !(Truthy(b.email) && Truthy(b.amount) && Truthy(b.frequency) && Truthy(b.dueDateDay) && Truthy(b.concept)) then
      Failure(RequiredMessage)
    else if !MatchesEmail(ToJsString(b.email)) then Failure(EmailMessage)
    else
      var amount := ParseInt(ToJsString(b.amount));
      if amount.None? || amount.value <= 0 then Failure(AmountMessage)
      else if FrequencyOf(b.frequency).None? then Failure(FrequencyMessage)
      else
        var frequency := FrequencyOf(b.frequency).value;
        var day := ParseInt(ToJsString(b.dueDateDay));
        if frequency == Monthly && day.Some? && (day.value < 1 || day.value > 31) then Failure(MonthlyDayMessage)
        else if frequency == Biweekly && !(day == Some(1) || day == Some(16)) then Failure(BiweeklyDayMessage)
        else Success(Admitted(ToJsString(b.email), amount.value, frequency, day, ToJsString(b.concept)))
  }

  /** The guards of send-now/route.ts:12-43: the first four of the schedule endpoint, and no day check. */
  function ValidateSendNow(b: Body): (r: Result<Admitted, string>)
  {
    if !(Truthy(b.email) && Truthy(b.amount) && Truthy(b.frequency) && Truthy(b.dueDateDay) && Truthy(b.concept)) then
      Failure(RequiredMessage)
    else if !MatchesEmail(ToJsString(b.email)) then Failure(EmailMessage)
    else
      var amount := ParseInt(ToJsString(b.amount));
      if amount.None? || amount.value <= 0 then Failure(AmountMessage)
      else if FrequencyOf(b.frequency).None? then Failure(FrequencyMessage)
      else
        Success(Admitted(ToJsString(b.email), amount.value, FrequencyOf(b.frequency).value,
                         ParseInt(ToJsString(b.dueDateDay)), ToJsString(b.concept)))
  }

  /** The amount check: `parseInt(amount)` is a number greater than 0. */
  predicate AmountOk(b: Body) {
    var amount := ParseInt(ToJsString(b.amount));
    amount.Some? && amount.value > 0
  }

  /** The day check of the admitted cadence; a NaN day passes the monthly one, whose comparisons are both false. */
  predicate DayOk(frequency: Frequency, day: Option<int>) {
    match frequency
    case Monthly => day.None? || 1 <= day.value <= 31
    case Biweekly => day == Some(1) || day == Some(16)
  }

  /**
   * Each message is answered exactly when every earlier guard passes and its own
   * fails: missing field, then email, then amount, then frequency, then day.
   */
  lemma {:induction false} ScheduleFirstFailureWins(b: Body)
    ensures ValidateSchedule(b) == Failure(RequiredMessage) <==> !AllPresent(b)
    ensures ValidateSchedule(b) == Failure(EmailMessage) <==>
      AllPresent(b) && !EmailPattern(ToJsString(b.email))
    ensures ValidateSchedule(b) == Failure(AmountMessage) <==>
      AllPresent(b) && EmailPattern(ToJsString(b.email)) && !AmountOk(b)
    ensures ValidateSchedule(b) == Failure(FrequencyMessage) <==>
      AllPresent(b) && EmailPattern(ToJsString(b.email)) && AmountOk(b) && FrequencyOf(b.frequency).None?
    ensures ValidateSchedule(b).Failure? && ValidateSchedule(b).error in {MonthlyDayMessage, BiweeklyDayMessage} <==>
      AllPresent(b) && EmailPattern(ToJsString(b.email)) && AmountOk(b) && FrequencyOf(b.frequency).Some?
      && !DayOk(FrequencyOf(b.frequency).value, ParseInt(ToJsString(b.dueDateDay)))
  {
    assert RequiredMessage != EmailMessage && RequiredMessage != AmountMessage && RequiredMessage != FrequencyMessage;
    assert EmailMessage != AmountMessage && EmailMessage != FrequencyMessage && AmountMessage != FrequencyMessage;
    assert MonthlyDayMessage !in {RequiredMessage, EmailMessage, AmountMessage, FrequencyMessage};
    assert BiweeklyDayMessage !in {RequiredMessage, EmailMessage, AmountMessage, FrequencyMessage};
  }

  /**
   * A request is admitted exactly when every guard passes, and then its email is a
   * string of the pattern, the amount is its parsed positive value and the day obeys
   * the cadence's rule.
   */
  lemma ScheduleAdmits(b: Body)
    ensures ValidateSchedule(b).Success? <==>
      AllPresent(b) && EmailPattern(ToJsString(b.email)) && AmountOk(b) && FrequencyOf(b.frequency).Some?
      && DayOk(FrequencyOf(b.frequency).value, ParseInt(ToJsString(b.dueDateDay)))
  {
    ScheduleFirstFailureWins(b);
    ScheduleMessages(b);
  }

  /** Every answer of the guards other than an admission is one of their five messages. */
  lemma ScheduleMessages(b: Body)
    ensures ValidateSchedule(b).Failure? ==>
      ValidateSchedule(b).error in {RequiredMessage, EmailMessage, AmountMessage, FrequencyMessage, MonthlyDayMessage, BiweeklyDayMessage}
  {
  }

  /** What an admitted request carries: its email string, its positive amount and a day that obeys the cadence's rule. */
  lemma AdmittedFields(b: Body)
    requires ValidateSchedule(b).Success?
    ensures var a := ValidateSchedule(b).value;
      && b.email == JStr(a.email) && EmailPattern(a.email)
      && a.amount > 0 && Some(a.amount) == ParseInt(ToJsString(b.amount))
      && a.dueDateDay == ParseInt(ToJsString(b.dueDateDay))
      && DayOk(a.frequency, a.dueDateDay)
  {
    EmailOnlyFromString(b.email);
  }

  /** A numeric amount is taken as it is: `parseInt(String(n)) == n`. */
  lemma NumericAmountKept(b: Body, n: int)
    requires b.amount == JNum(n)
    ensures AmountOk(b) <==> n > 0
  {
    ParseIntOfNumber(n);
  }

  /** A monthly request with a non-numeric day passes every guard, with a NaN day. */
  lemma NaNDayPassesMonthlyGuard(b: Body)
    requires AllPresent(b) && EmailPattern(ToJsString(b.email)) && AmountOk(b)
    requires b.frequency == JStr("monthly") && b.dueDateDay == JStr("abc")
    ensures ValidateSchedule(b).Success? && ValidateSchedule(b).value.dueDateDay.None?
  {
    ParseIntNaN();
    assert ToJsString(b.dueDateDay) == "abc";
    ScheduleAdmits(b);
    AdmittedFields(b);
  }

  /**
   * The send-now guards are the schedule guards without the day check: they fail with
   * the same message whenever they fail, and admit the same fields whenever the
   * schedule guards admit; when only the schedule guards fail, it is on the day.
   */
  lemma SendNowGuardsMatchSchedule(b: Body)
    ensures ValidateSendNow(b).Failure? ==> ValidateSchedule(b) == ValidateSendNow(b)
    ensures ValidateSchedule(b).Success? ==> ValidateSendNow(b) == ValidateSchedule(b)
    ensures ValidateSendNow(b).Success? && ValidateSchedule(b).Failure? ==>
      ValidateSchedule(b).error in {MonthlyDayMessage, BiweeklyDayMessage}
  {
  }

  // ---------------------------------------------------------------------------
  // POST /api/invoices/schedule

  datatype ScheduleResponse =
    | Scheduled(invoiceId: InvoiceId)        // 200
    | ScheduleRejected(error: string)         // 400
    | ScheduleServerError                     // 500, 'Error interno del servidor'

  /** The fields handed to `createScheduledInvoice`: the admitted request, active. */
  function ScheduleInput(a: Admitted): NewInvoice {
    NewInvoice(a.email, a.amount, a.frequency, a.dueDateDay, a.concept, true, None)
  }

  /**
   * schedule/route.ts:4-82: an unparsable body and any error of the store (including
   * the calculator's on a NaN monthly day) answer 500.
   */
  function SchedulePost(db: Db, body: Option<Body>, now: Instant, fault: Option<string>): (r: (Db, ScheduleResponse))
    requires IsValid(now.date)
  {
    if body.None? then (db, ScheduleServerError)
    else
      match ValidateSchedule(body.value)
      case Failure(e) => (db, ScheduleRejected(e))
      case Success(a) =>
        var (db', id) := CreateScheduledInvoice(db, ScheduleInput(a), now, fault);
        if id.Failure? then (db', ScheduleServerError) else (db', Scheduled(id.value))
  }

  /**
   * A rejected or failed request writes nothing; an accepted one adds exactly one
   * active, 'Programada' row with the request's email, cadence and concept and the
   * parsed amount and day, not due before tomorrow.
   */
  lemma SchedulePostOutcome(db: Db, body: Option<Body>, now: Instant, fault: Option<string>)
    requires IsValid(now.date) && WellFormed(db)
    ensures var (db', resp) := SchedulePost(db, body, now, fault);
      && (!resp.Scheduled? ==> db' == db)
      && (resp.ScheduleRejected? <==> body.Some? && ValidateSchedule(body.value).Failure?)
      && (resp.Scheduled? ==>
            var a := ValidateSchedule(body.value).value;
            var id := resp.invoiceId;
            && WellFormed(db') && id !in db.rows && db'.rows.Keys == db.rows.Keys + {id}
            && SameRowsExcept(db.rows, db'.rows, id) && db'.logs == db.logs
            && db'.rows[id].isActive && db'.rows[id].status == Some(Programada)
            && db'.rows[id].amount == a.amount && db'.rows[id].dueDateDay == a.dueDateDay
            && db'.rows[id].email == a.email && db'.rows[id].frequency == a.frequency
            && db'.rows[id].concept == a.concept
            && (a.dueDateDay.Some? ==> Before(now.date, db'.rows[id].nextSendDate)))
  {
    if body.Some? && ValidateSchedule(body.value).Success? {
      var a := ValidateSchedule(body.value).value;
      if a.dueDateDay.Some? {
        NewScheduleNotDueToday(db, ScheduleInput(a), now, fault);
      }
    }
  }

  /** A monthly request whose day is NaN passes the guards but is answered 500 with nothing stored. */
  lemma NaNMonthlyDayIsServerError(db: Db, b: Body, now: Instant, fault: Option<string>)
    requires IsValid(now.date)
    requires ValidateSchedule(b).Success? && ValidateSchedule(b).value.frequency == Monthly
    requires ValidateSchedule(b).value.dueDateDay.None?
    ensures SchedulePost(db, Some(b), now, fault) == (db, ScheduleServerError)
  {
  }

  // ---------------------------------------------------------------------------
  // GET /api/invoices/schedule

  datatype ListResponse = Listed(invoices: seq<ScheduledInvoice>) | ListServerError

  /** schedule/route.ts:84-100: every active row, or 500. */
  method ScheduleGet(store: Store.InvoiceStore, fault: Option<string>) returns (resp: ListResponse)
    requires store.Valid()
    ensures resp.ListServerError? <==> fault.Some?
    ensures resp.Listed? ==> IsListing(store.rows, None, resp.invoices)
  {
    var r := store.GetActiveScheduledInvoices(fault);
    if r.Failure? {
      return ListServerError;
    }
    resp := Listed(r.value);
  }

  // ---------------------------------------------------------------------------
  // POST /api/invoices/send-now

  /**
   * The invoice mailed by send-now: id `temp-<millis>`, active, never sent, due today,
   * whatever its day says (send-now/route.ts:47-62).
   */
  function TemporaryInvoice(a: Admitted, now: Instant, millis: int): (inv: ScheduledInvoice)
    ensures inv.id == Temp(millis) && inv.isActive && inv.lastSent.None? && inv.nextSendDate == now.date
    ensures inv.email == a.email && inv.amount == a.amount && inv.concept == a.concept
    ensures inv.frequency == a.frequency && inv.dueDateDay == a.dueDateDay
  {
    ScheduledInvoice(Temp(millis), a.email, a.amount, a.frequency, a.dueDateDay, a.concept, true, Some(now), None, now.date, None)
  }

  datatype SendNowResponse =
    | SentNow                                  // 200
    | SendNowRejected(error: string)           // 400
    | SendNowFailed(error: string)             // 500 carrying the gateway's error
    | SendNowServerError                       // 500, 'Error interno del servidor'

  /**
   * send-now/route.ts:5-92 given the gateway's answer: the invoice handed to the gateway
   * (none when the request is refused) and the response. It takes no store.
   */
  function SendNowPost(body: Option<Body>, now: Instant, millis: int, delivery: Delivery): (r: (Option<ScheduledInvoice>, SendNowResponse))
  {
    if body.None? then (None, SendNowServerError)
    else
      match ValidateSendNow(body.value)
      case Failure(e) => (None, SendNowRejected(e))
      case Success(a) =>
        var inv := TemporaryInvoice(a, now, millis);
        match delivery
        case Delivered => (Some(inv), SentNow)
        case DeliveryFailed(e) => (Some(inv), SendNowFailed(if e != "" then e else SendFailedMessage))
  }

  /**
   * Send-now answers success exactly when the guards pass and the gateway accepts;
   * a gateway failure answers its error (or the fixed text when it is empty); and the
   * mailed invoice is the temporary one, due today whatever the day field holds.
   */
  lemma SendNowOutcome(body: Option<Body>, now: Instant, millis: int, delivery: Delivery)
    ensures var (sent, resp) := SendNowPost(body, now, millis, delivery);
      && (resp == SentNow <==> body.Some? && ValidateSendNow(body.value).Success? && delivery.Delivered?)
      && (sent.Some? <==> body.Some? && ValidateSendNow(body.value).Success?)
      && (sent.Some? ==> sent.value == TemporaryInvoice(ValidateSendNow(body.value).value, now, millis))
      && (resp.SendNowFailed? ==>
            (delivery.DeliveryFailed? && resp.error != "" && (delivery.error != "" ==> resp.error == delivery.error)))
  {
  }
}
