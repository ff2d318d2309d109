/**
 * The next-send-date calculator of the invoice store (`calculateNextSendDate`,
 * lib/database.ts:207-255) and the Gregorian calendar it runs on.
 *
 * The source mutates one JavaScript `Date` with `setMonth` and `setDate`. Those
 * setters never fail: a day that does not exist in the month overflows into the
 * next month (Feb 31 becomes Mar 2 or Mar 3) and day 0 means "the last day of the
 * previous month". `Normalize` reproduces that arithmetic on (year, month, day).
 * Time of day is left out: the calculator's copy and "now" share it, so comparing
 * the two instants is comparing their calendar dates.
 *
 * `NextSendDate` is the calculator as written, and the store runs it. Because it
 * advances the month before setting the day, a day of today that next month lacks
 * skips that month entirely; `IntendedNextSendDate`, which sets the day to 1 first,
 * is the evidently intended calculator, and its properties are proved beside it.
 */
module Calendar {
  import opened Wrappers

  datatype Frequency = Monthly | Biweekly

  datatype YearMonth = YearMonth(year: int, month: int)

  /** A calendar date; `month` runs from 1 to 12 (JavaScript's `getMonth()` is `month - 1`). */
  datatype Date = Date(year: int, month: int, day: int)

  predicate IsLeapYear(y: int) {
    y % 4 == 0 && (y % 100 != 0 || y % 400 == 0)
  }

  predicate ValidMonth(ym: YearMonth) {
    1 <= ym.month <= 12
  }

  function DaysIn(ym: YearMonth): (n: int)
    requires ValidMonth(ym)
    ensures 28 <= n <= 31
    ensures n == 29 <==> ym.month == 2 && IsLeapYear(ym.year)
  {
    if ym.month == 2 then (if IsLeapYear(ym.year) then 29 else 28)
    else if ym.month == 4 || ym.month == 6 || ym.month == 9 || ym.month == 11 then 30
    else 31
  }

  function MonthOf(d: Date): YearMonth {
    YearMonth(d.year, d.month)
  }

  predicate IsValid(d: Date) {
    ValidMonth(MonthOf(d)) && 1 <= d.day <= DaysIn(MonthOf(d))
  }

  function NextMonth(ym: YearMonth): (r: YearMonth)
    requires ValidMonth(ym)
    ensures ValidMonth(r)
  {
    if ym.month == 12 then YearMonth(ym.year + 1, 1) else YearMonth(ym.year, ym.month + 1)
  }

  function PrevMonth(ym: YearMonth): (r: YearMonth)
    requires ValidMonth(ym)
    ensures ValidMonth(r)
    ensures NextMonth(r) == ym
  {
    if ym.month == 1 then YearMonth(ym.year - 1, 12) else YearMonth(ym.year, ym.month - 1)
  }

  /** Months counted from year 0, so that consecutive months differ by one. */
  function MonthNumber(ym: YearMonth): int {
    ym.year * 12 + ym.month - 1
  }

  /** Strict chronological order of dates (the `<` of the two `Date` instants). */
  predicate Before(a: Date, b: Date) {
    a.year < b.year || (a.year == b.year && (a.month < b.month || (a.month == b.month && a.day < b.day)))
  }

  /** `a <= b` on instants. */
  predicate NotAfter(a: Date, b: Date) {
    !Before(b, a)
  }

  /**
   * The date JavaScript builds from a month and any integer day: days past the end
   * of the month spill into the following months, days below 1 into the previous ones.
   */
  function Normalize(ym: YearMonth, d: int): (r: Date)
    requires ValidMonth(ym)
    ensures IsValid(r)
    decreases if d < 1 then 1 else 0, if d < 1 then 1 - d else d
  {
    if d < 1 then Normalize(PrevMonth(ym), d + DaysIn(PrevMonth(ym)))
    else if d > DaysIn(ym) then Normalize(NextMonth(ym), d - DaysIn(ym))
    else Date(ym.year, ym.month, d)
  }

  /** `date.setMonth(monthIndex)`: the month index is 0-based and may leave the year. */
  function SetMonth(t: Date, monthIndex: int): (r: Date)
    requires IsValid(t)
    ensures IsValid(r)
  {
    Normalize(YearMonth(t.year + monthIndex / 12, monthIndex % 12 + 1), t.day)
  }

  /** `date.setDate(d)`. */
  function SetDate(t: Date, d: int): (r: Date)
    requires IsValid(t)
    ensures IsValid(r)
  {
    Normalize(MonthOf(t), d)
  }

  /** `date.getMonth()`. */
  function GetMonth(t: Date): int {
    t.month - 1
  }

  /** The date computed before the "already passed" check (lib/database.ts:212-234). */
  function Candidate(freq: Frequency, dueDateDay: int, today: Date): (r: Date)
    requires IsValid(today)
    ensures IsValid(r)
  {
    var moved := SetMonth(today, GetMonth(today) + 1);
    match freq
    case Monthly =>
      var withDay := SetDate(moved, dueDateDay);
      if withDay.day != dueDateDay then SetDate(withDay, 0) else withDay
    case Biweekly =>
      if dueDateDay == 1 then SetDate(moved, 1) else SetDate(moved, 16)
  }

  /** The "already passed" branch (lib/database.ts:236-250), applied to a computed date. */
  function Rollover(freq: Frequency, dueDateDay: int, next: Date, today: Date): (r: Date)
    requires IsValid(next)
    ensures IsValid(r)
  {
    if NotAfter(next, today) then
      match freq
      case Monthly => SetMonth(next, GetMonth(next) + 1)
      case Biweekly =>
        if dueDateDay == 1 then SetDate(next, 16) else SetDate(SetMonth(next, GetMonth(next) + 1), 1)
    else next
  }

  /** `calculateNextSendDate(frequency, dueDateDay)` as written, with "today" as a parameter. */
  function NextSendDate(freq: Frequency, dueDateDay: int, today: Date): (r: Date)
    requires IsValid(today)
    ensures IsValid(r)
  {
    Rollover(freq, dueDateDay, Candidate(freq, dueDateDay, today), today)
  }

  const InvalidTimeValue: string := "Invalid time value"

  /**
   * The calculator the store runs, applied to a JavaScript number that may be NaN
   * (`None`): `NextSendDate` as written. A NaN day turns the monthly `Date` invalid
   * and `toISOString` throws; the biweekly branch only compares the day with 1, so a
   * NaN day takes the second-half branch and still yields a date.
   */
  function NextSendDateOf(freq: Frequency, dueDateDay: Option<int>, today: Date): (r: Result<Date, string>)
    requires IsValid(today)
    ensures r.Failure? <==> dueDateDay.None? && freq == Monthly
    ensures r.Success? ==> IsValid(r.value)
    ensures dueDateDay.Some? ==> r == Success(NextSendDate(freq, dueDateDay.value, today))
    ensures dueDateDay.None? && freq == Biweekly ==> r == Success(NextSendDate(Biweekly, 16, today))
  {
    match dueDateDay
    case Some(d) => Success(NextSendDate(freq, d, today))
    case None =>
      if freq == Monthly then Failure(InvalidTimeValue)
      else Success(NextSendDate(Biweekly, 16, today))
  }

  /** The month the calculator lands in: next month, or the one after when today's day overflows it. */
  function TargetMonth(today: Date): YearMonth
    requires IsValid(today)
  {
    var next := NextMonth(MonthOf(today));
    if today.day <= DaysIn(next) then next else NextMonth(next)
  }

  // ---------------------------------------------------------------------------
  // Facts about Normalize and the setters

  lemma NormalizeInMonth(ym: YearMonth, d: int)
    requires ValidMonth(ym) && 1 <= d <= DaysIn(ym)
    ensures Normalize(ym, d) == Date(ym.year, ym.month, d)
  {
  }

  lemma NormalizeIntoNextMonth(ym: YearMonth, d: int)
    requires ValidMonth(ym) && DaysIn(ym) < d <= DaysIn(ym) + 28
    ensures Normalize(ym, d) == Date(NextMonth(ym).year, NextMonth(ym).month, d - DaysIn(ym))
  {
    NormalizeInMonth(NextMonth(ym), d - DaysIn(ym));
  }

  lemma NormalizeDayZero(ym: YearMonth)
    requires ValidMonth(ym)
    ensures Normalize(ym, 0) == Date(PrevMonth(ym).year, PrevMonth(ym).month, DaysIn(PrevMonth(ym)))
  {
    NormalizeInMonth(PrevMonth(ym), DaysIn(PrevMonth(ym)));
  }

  lemma NextMonthByIndex(t: Date)
    requires IsValid(t)
    ensures YearMonth(t.year + (GetMonth(t) + 1) / 12, (GetMonth(t) + 1) % 12 + 1) == NextMonth(MonthOf(t))
  {
  }

  /** `setMonth(getMonth() + 1)` keeps the day when next month has it and overflows otherwise. */
  lemma {:induction false} MoveToNextMonth(t: Date)
    requires IsValid(t)
    ensures var next := NextMonth(MonthOf(t));
      SetMonth(t, GetMonth(t) + 1) ==
        if t.day <= DaysIn(next) then Date(next.year, next.month, t.day)
        else Date(NextMonth(next).year, NextMonth(next).month, t.day - DaysIn(next))
  {
    NextMonthByIndex(t);
    var next := NextMonth(MonthOf(t));
    if t.day <= DaysIn(next) {
      NormalizeInMonth(next, t.day);
    } else {
      NormalizeIntoNextMonth(next, t.day);
    }
  }

  lemma LaterMonthIsLater(a: Date, b: Date)
    requires IsValid(a) && IsValid(b)
    requires MonthNumber(MonthOf(a)) < MonthNumber(MonthOf(b))
    ensures Before(a, b)
  {
  }

  lemma NextMonthNumber(ym: YearMonth)
    requires ValidMonth(ym)
    ensures MonthNumber(NextMonth(ym)) == MonthNumber(ym) + 1
  {
  }

  lemma {:induction false} TargetMonthIsLater(today: Date)
    requires IsValid(today)
    ensures MonthNumber(MonthOf(today)) < MonthNumber(TargetMonth(today))
    ensures ValidMonth(TargetMonth(today))
  {
    NextMonthNumber(MonthOf(today));
    NextMonthNumber(NextMonth(MonthOf(today)));
  }

  // ---------------------------------------------------------------------------
  // What the calculator computes

  /**
   * Monthly cadence with a cut-off day in [1, 31]: the result lies in the target month,
   * on the cut-off day when that month has it and on its last day otherwise, strictly
   * after today; so the "already passed" branch is never taken.
   */
  lemma {:induction false} MonthlyNextSendDate(dueDateDay: int, today: Date)
    requires IsValid(today) && 1 <= dueDateDay <= 31
    ensures var target := TargetMonth(today);
      var r := NextSendDate(Monthly, dueDateDay, today);
      && ValidMonth(target)
      && MonthOf(r) == target
      && r.day == (if dueDateDay <= DaysIn(target) then dueDateDay else DaysIn(target))
      && Before(today, Candidate(Monthly, dueDateDay, today))
      && r == Candidate(Monthly, dueDateDay, today)
      && Before(today, r)
  {
    TargetMonthIsLater(today);
    MoveToNextMonth(today);
    var target := TargetMonth(today);
    var moved := SetMonth(today, GetMonth(today) + 1);
    assert MonthOf(moved) == target;
    var c := Candidate(Monthly, dueDateDay, today);
    if dueDateDay <= DaysIn(target) {
      NormalizeInMonth(target, dueDateDay);
      assert c == Date(target.year, target.month, dueDateDay);
    } else {
      NormalizeIntoNextMonth(target, dueDateDay);
      var withDay := SetDate(moved, dueDateDay);
      assert withDay.day == dueDateDay - DaysIn(target) != dueDateDay;
      NormalizeDayZero(MonthOf(withDay));
      assert c == Date(target.year, target.month, DaysIn(target));
    }
    LaterMonthIsLater(today, c);
  }

  /**
   * Biweekly cadence, whatever the cut-off day: day 1 of the target month when the
   * cut-off day is 1 and day 16 otherwise, strictly after today.
   */
  lemma {:induction false} BiweeklyNextSendDate(dueDateDay: int, today: Date)
    requires IsValid(today)
    ensures var target := TargetMonth(today);
      var r := NextSendDate(Biweekly, dueDateDay, today);
      && MonthOf(r) == target
      && r.day == (if dueDateDay == 1 then 1 else 16)
      && r == Candidate(Biweekly, dueDateDay, today)
      && Before(today, r)
  {
    TargetMonthIsLater(today);
    MoveToNextMonth(today);
    var target := TargetMonth(today);
    var c := Candidate(Biweekly, dueDateDay, today);
    if dueDateDay == 1 {
      NormalizeInMonth(target, 1);
    } else {
      NormalizeInMonth(target, 16);
    }
    assert MonthOf(c) == target;
    LaterMonthIsLater(today, c);
  }

  /** Every value the schedule endpoint admits gives a date strictly after today. */
  lemma NextSendDateIsLater(freq: Frequency, dueDateDay: int, today: Date)
    requires IsValid(today)
    requires freq == Monthly ==> 1 <= dueDateDay <= 31
    ensures Before(today, NextSendDate(freq, dueDateDay, today))
  {
    if freq == Monthly {
      MonthlyNextSendDate(dueDateDay, today);
    } else {
      BiweeklyNextSendDate(dueDateDay, today);
    }
  }

  /** With an out-of-range day such as 0 the "already passed" branch is reachable. */
  lemma RolloverWithDayZero()
    ensures Candidate(Monthly, 0, Date(2024, 1, 20)) == Date(2023, 12, 31)
    ensures NextSendDate(Monthly, 0, Date(2024, 1, 20)) == Date(2024, 1, 31)
  {
    var today := Date(2024, 1, 20);
    MoveToNextMonth(today);
    assert DaysIn(YearMonth(2024, 2)) == 29;
    var moved := SetMonth(today, GetMonth(today) + 1);
    assert moved == Date(2024, 2, 20);
    NormalizeDayZero(YearMonth(2024, 2));
    var withDay := SetDate(moved, 0);
    assert withDay == Date(2024, 1, 31);
    NormalizeDayZero(YearMonth(2024, 1));
    var c := SetDate(withDay, 0);
    assert c == Date(2023, 12, 31);
    MoveToNextMonth(c);
  }

  /** 2024-01-20, monthly, day 31: clamped to 2024-02-29 (a leap year). */
  lemma LeapYearClampExample()
    ensures NextSendDate(Monthly, 31, Date(2024, 1, 20)) == Date(2024, 2, 29)
  {
    MonthlyNextSendDate(31, Date(2024, 1, 20));
  }

  /** 2024-03-01, biweekly, day 1: the first of next month, 2024-04-01. */
  lemma BiweeklyFirstHalfExample()
    ensures NextSendDate(Biweekly, 1, Date(2024, 3, 1)) == Date(2024, 4, 1)
  {
    BiweeklyNextSendDate(1, Date(2024, 3, 1));
  }

  // ---------------------------------------------------------------------------
  // The month the monthly cadence skips

  /**
   * As written: sent on 2024-01-31 with cut-off day 31, the next send date is
   * 2024-03-31, because `setMonth` turns Feb 31 into Mar 2 before the day is set.
   */
  lemma MonthlySkipsFebruary()
    ensures NextSendDate(Monthly, 31, Date(2024, 1, 31)) == Date(2024, 3, 31)
    ensures IntendedNextSendDate(Monthly, 31, Date(2024, 1, 31)) == Date(2024, 2, 29)
  {
    var today := Date(2024, 1, 31);
    assert DaysIn(YearMonth(2024, 2)) == 29;
    assert DaysIn(YearMonth(2024, 3)) == 31;
    assert TargetMonth(today) == YearMonth(2024, 3);
    MonthlyNextSendDate(31, today);
    IntendedMonthlyNextSendDate(31, today);
  }

  /** The calculator with the day moved to 1 before the month is advanced, so `setMonth` cannot overflow. */
  function IntendedNextSendDate(freq: Frequency, dueDateDay: int, today: Date): (r: Date)
    requires IsValid(today)
    ensures IsValid(r)
  {
    var moved := SetMonth(SetDate(today, 1), GetMonth(today) + 1);
    var next :=
      match freq
      case Monthly =>
        var withDay := SetDate(moved, dueDateDay);
        if withDay.day != dueDateDay then SetDate(withDay, 0) else withDay
      case Biweekly =>
        if dueDateDay == 1 then SetDate(moved, 1) else SetDate(moved, 16);
    Rollover(freq, dueDateDay, next, today)
  }

  /** Corrected monthly cadence: always next month, on the cut-off day or the month's last day. */
  lemma {:induction false} IntendedMonthlyNextSendDate(dueDateDay: int, today: Date)
    requires IsValid(today) && 1 <= dueDateDay <= 31
    ensures var next := NextMonth(MonthOf(today));
      var r := IntendedNextSendDate(Monthly, dueDateDay, today);
      && MonthOf(r) == next
      && r.day == (if dueDateDay <= DaysIn(next) then dueDateDay else DaysIn(next))
      && Before(today, r)
  {
    var next := NextMonth(MonthOf(today));
    NextMonthNumber(MonthOf(today));
    NormalizeInMonth(MonthOf(today), 1);
    var first := SetDate(today, 1);
    assert first == Date(today.year, today.month, 1);
    MoveToNextMonth(first);
    var moved := SetMonth(first, GetMonth(today) + 1);
    assert moved == Date(next.year, next.month, 1);
    var withDay := SetDate(moved, dueDateDay);
    var c: Date;
    if dueDateDay <= DaysIn(next) {
      NormalizeInMonth(next, dueDateDay);
      c := withDay;
    } else {
      NormalizeIntoNextMonth(next, dueDateDay);
      assert withDay.day != dueDateDay;
      NormalizeDayZero(MonthOf(withDay));
      c := SetDate(withDay, 0);
      assert c == Date(next.year, next.month, DaysIn(next));
    }
    LaterMonthIsLater(today, c);
  }

  /** Corrected biweekly cadence: always next month, on day 1 or day 16. */
  lemma {:induction false} IntendedBiweeklyNextSendDate(dueDateDay: int, today: Date)
    requires IsValid(today)
    ensures var next := NextMonth(MonthOf(today));
      var r := IntendedNextSendDate(Biweekly, dueDateDay, today);
      && MonthOf(r) == next
      && r.day == (if dueDateDay == 1 then 1 else 16)
      && Before(today, r)
  {
    var next := NextMonth(MonthOf(today));
    NextMonthNumber(MonthOf(today));
    NormalizeInMonth(MonthOf(today), 1);
    var first := SetDate(today, 1);
    assert first == Date(today.year, today.month, 1);
    MoveToNextMonth(first);
    var moved := SetMonth(first, GetMonth(today) + 1);
    assert moved == Date(next.year, next.month, 1);
    var d := if dueDateDay == 1 then 1 else 16;
    NormalizeInMonth(next, d);
    LaterMonthIsLater(today, Date(next.year, next.month, d));
  }

  /** Every value the schedule endpoint admits gives a corrected date strictly after today. */
  lemma IntendedNextSendDateIsLater(freq: Frequency, dueDateDay: int, today: Date)
    requires IsValid(today)
    requires freq == Monthly ==> 1 <= dueDateDay <= 31
    ensures Before(today, IntendedNextSendDate(freq, dueDateDay, today))
  {
    if freq == Monthly {
      IntendedMonthlyNextSendDate(dueDateDay, today);
    } else {
      IntendedBiweeklyNextSendDate(dueDateDay, today);
    }
  }

  /**
   * The correction only changes the days on which next month is shorter than today's
   * day: on every other day the two calculators agree for every admitted value.
   */
  lemma CalculatorsAgree(freq: Frequency, dueDateDay: int, today: Date)
    requires IsValid(today) && today.day <= DaysIn(NextMonth(MonthOf(today)))
    requires freq == Monthly ==> 1 <= dueDateDay <= 31
    ensures NextSendDate(freq, dueDateDay, today) == IntendedNextSendDate(freq, dueDateDay, today)
  {
    if freq == Monthly {
      MonthlyNextSendDate(dueDateDay, today);
      IntendedMonthlyNextSendDate(dueDateDay, today);
    } else {
      BiweeklyNextSendDate(dueDateDay, today);
      IntendedBiweeklyNextSendDate(dueDateDay, today);
    }
  }

  /** As written, the biweekly cadence skips February too: sent on 2024-01-31 for day 16, it next sends on 2024-03-16. */
  lemma BiweeklySkipsFebruary()
    ensures NextSendDate(Biweekly, 16, Date(2024, 1, 31)) == Date(2024, 3, 16)
    ensures IntendedNextSendDate(Biweekly, 16, Date(2024, 1, 31)) == Date(2024, 2, 16)
  {
    var today := Date(2024, 1, 31);
    assert DaysIn(YearMonth(2024, 2)) == 29;
    assert TargetMonth(today) == YearMonth(2024, 3);
    BiweeklyNextSendDate(16, today);
    IntendedBiweeklyNextSendDate(16, today);
  }
}
