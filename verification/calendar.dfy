/** Dates and times as System.DateTime represents them: the proleptic Gregorian
    calendar from 0001-01-01 to 9999-12-31, a day split into 100-nanosecond
    ticks, and values ordered by their tick count since 0001-01-01 00:00. */
module Calendar {
  import opened Wrappers

  const TicksPerHour: int := 36_000_000_000
  const TicksPerDay: int := 24 * TicksPerHour

  const Sunday: int := 0
  const Saturday: int := 6

  predicate IsLeapYear(year: int) {
    year % 4 == 0 && (year % 100 != 0 || year % 400 == 0)
  }

  function DaysInYear(year: int): int {
    if IsLeapYear(year) then 366 else 365
  }

  function DaysInMonth(year: int, month: int): (n: int)
    requires 1 <= month <= 12
    ensures 28 <= n <= 31
  {
    if month == 2 then (if IsLeapYear(year) then 29 else 28)
    else if month == 4 || month == 6 || month == 9 || month == 11 then 30
    else 31
  }

  /** Days of `year` that precede the first of `month`. */
  function DaysBeforeMonth(year: int, month: int): int
    requires 1 <= month <= 12
  {
    var common :=
      if month == 1 then 0 else if month == 2 then 31 else if month == 3 then 59
      else if month == 4 then 90 else if month == 5 then 120 else if month == 6 then 151
      else if month == 7 then 181 else if month == 8 then 212 else if month == 9 then 243
      else if month == 10 then 273 else if month == 11 then 304 else 334;
    if month > 2 && IsLeapYear(year) then common + 1 else common
  }

  /** Days from 0001-01-01 to the first of January of `year`. */
  function DaysBeforeYear(year: int): int
    requires year >= 1
  {
    var y := year - 1;
    365 * y + y / 4 - y / 100 + y / 400
  }

  datatype DateTimeValue = DateTimeValue(year: int, month: int, day: int, tick: int) {
    predicate Valid() {
      && 1 <= year <= 9999
      && 1 <= month <= 12
      && 1 <= day <= DaysInMonth(year, month)
      && 0 <= tick < TicksPerDay
    }
  }

  /** A System.DateTime: its constructors reject every invalid field. */
  type DateTime = d: DateTimeValue | d.Valid() witness DateTimeValue(1, 1, 1, 0)

  /** `default(DateTime)`, 0001-01-01 00:00:00. */
  const MinValue: DateTime := DateTimeValue(1, 1, 1, 0)

  /** Midnight of a calendar day; None where `new DateTime(y, m, d)` throws. */
  function Midnight(year: int, month: int, day: int): (r: Option<DateTime>)
    ensures r.Some? <==> 1 <= year <= 9999 && 1 <= month <= 12 && 1 <= day <= DaysInMonth(year, month)
    ensures r.Some? ==> r.value.year == year && r.value.month == month && r.value.day == day && r.value.tick == 0
  {
    if 1 <= year <= 9999 && 1 <= month <= 12 && 1 <= day <= DaysInMonth(year, month)
    then Some(DateTimeValue(year, month, day, 0))
    else None
  }

  /** Days since 0001-01-01. */
  function DayNumber(d: DateTime): int {
    DaysBeforeYear(d.year) + DaysBeforeMonth(d.year, d.month) + d.day - 1
  }

  /** DateTime.Ticks, the quantity every DateTime comparison is made on. */
  function Ticks(d: DateTime): int {
    DayNumber(d) * TicksPerDay + d.tick
  }

  /** Lexicographic order on (year, month, day, time of day). */
  predicate Precedes(a: DateTimeValue, b: DateTimeValue) {
    || a.year < b.year
    || (a.year == b.year && a.month < b.month)
    || (a.year == b.year && a.month == b.month && a.day < b.day)
    || (a.year == b.year && a.month == b.month && a.day == b.day && a.tick < b.tick)
  }

  /** DateTime.DayOfWeek (0 = Sunday, ..., 6 = Saturday); 0001-01-01 was a Monday. */
  function DayOfWeek(d: DateTime): (w: int)
    ensures 0 <= w < 7
  {
    (DayNumber(d) + 1) % 7
  }

  predicate IsWeekend(d: DateTime) {
    DayOfWeek(d) == Saturday || DayOfWeek(d) == Sunday
  }

  // ---------------------------------------------------------------------
  // The tick count orders DateTime values as the calendar does.

  lemma DivStep(n: int, k: int)
    requires n >= 1 && k >= 1
    ensures n / k - (n - 1) / k == if n % k == 0 then 1 else 0
  {
    var q, r := n / k, n % k;
    assert n == k * q + r;
    if r == 0 {
      assert n - 1 == k * (q - 1) + (k - 1);
      DivOfDecomposition(n - 1, k, q - 1, k - 1);
    } else {
      assert n - 1 == k * q + (r - 1);
      DivOfDecomposition(n - 1, k, q, r - 1);
    }
  }

  lemma DivOfDecomposition(n: int, k: int, q: int, r: int)
    requires k >= 1 && 0 <= r < k && n == k * q + r
    ensures n / k == q
  {
    var q', r' := n / k, n % k;
    assert k * q' + r' == k * q + r;
    if q' < q {
      assert k * q' + r' < k * q' + k;
      assert k * (q' + 1) <= k * q by { MulMonotone(k, q' + 1, q); }
    } else if q' > q {
      assert k * (q + 1) <= k * q' by { MulMonotone(k, q + 1, q'); }
    }
  }

  lemma MulMonotone(k: int, a: int, b: int)
    requires k >= 0 && a <= b
    ensures k * a <= k * b
  {
    assert k * b - k * a == k * (b - a);
  }

  lemma LeapDivisors(y: int)
    ensures y % 400 == 0 ==> y % 100 == 0
    ensures y % 100 == 0 ==> y % 4 == 0
  {
    if y % 400 == 0 {
      var q := y / 400;
      assert y == 100 * (4 * q) + 0;
      DivOfDecomposition(y, 100, 4 * q, 0);
    }
    if y % 100 == 0 {
      var q := y / 100;
      assert y == 4 * (25 * q) + 0;
      DivOfDecomposition(y, 4, 25 * q, 0);
    }
  }

  /** One more year adds exactly that year's days. */
  lemma YearStep(year: int)
    requires year >= 1
    ensures DaysBeforeYear(year + 1) == DaysBeforeYear(year) + DaysInYear(year)
  {
    DivStep(year, 4);
    DivStep(year, 100);
    DivStep(year, 400);
    LeapDivisors(year);
  }

  lemma {:induction false} YearsOrdered(y1: int, y2: int)
    requires 1 <= y1 < y2
    ensures DaysBeforeYear(y1) + DaysInYear(y1) <= DaysBeforeYear(y2)
    decreases y2 - y1
  {
    YearStep(y1);
    if y1 + 1 < y2 {
      YearsOrdered(y1 + 1, y2);
    }
  }

  lemma MonthsOrdered(year: int, m1: int, m2: int)
    requires 1 <= m1 < m2 <= 12
    ensures DaysBeforeMonth(year, m1) + DaysInMonth(year, m1) <= DaysBeforeMonth(year, m2)
  {
  }

  lemma LastMonthEndsYear(year: int)
    ensures DaysBeforeMonth(year, 12) + DaysInMonth(year, 12) == DaysInYear(year)
  {
  }

  /** An earlier calendar day has a smaller day number. */
  lemma DayNumberOrdered(a: DateTime, b: DateTime)
    requires Precedes(a.(tick := 0), b.(tick := 0))
    ensures DayNumber(a) < DayNumber(b)
  {
    if a.year < b.year {
      YearsOrdered(a.year, b.year);
      if a.month < 12 {
        MonthsOrdered(a.year, a.month, 12);
      }
      LastMonthEndsYear(a.year);
    } else if a.month < b.month {
      MonthsOrdered(a.year, a.month, b.month);
    }
  }

  /** Comparing DateTime values by ticks is comparing them on the calendar. */
  lemma TicksOrder(a: DateTime, b: DateTime)
    ensures Ticks(a) < Ticks(b) <==> Precedes(a, b)
    ensures Ticks(a) == Ticks(b) <==> a == b
  {
    if Precedes(a.(tick := 0), b.(tick := 0)) {
      DayNumberOrdered(a, b);
      EarlierDayFewerTicks(a, b);
    } else if Precedes(b.(tick := 0), a.(tick := 0)) {
      DayNumberOrdered(b, a);
      EarlierDayFewerTicks(b, a);
    } else {
      assert a.year == b.year && a.month == b.month && a.day == b.day;
      assert Ticks(b) - Ticks(a) == b.tick - a.tick;
    }
  }

  /** Any time on an earlier day has fewer ticks than any time on a later one. */
  lemma EarlierDayFewerTicks(a: DateTime, b: DateTime)
    requires DayNumber(a) < DayNumber(b)
    ensures Ticks(a) < Ticks(b)
  {
    MulMonotone(TicksPerDay, DayNumber(a) + 1, DayNumber(b));
    assert (DayNumber(a) + 1) * TicksPerDay == DayNumber(a) * TicksPerDay + TicksPerDay;
  }

  /** The same time of day on the following calendar day; None after 9999-12-31. */
  function NextDay(d: DateTime): Option<DateTime> {
    if d.day < DaysInMonth(d.year, d.month) then Some(d.(day := d.day + 1))
    else if d.month < 12 then Some(d.(month := d.month + 1, day := 1))
    else if d.year < 9999 then Some(d.(year := d.year + 1, month := 1, day := 1))
    else None
  }

  lemma NextDayNumber(d: DateTime)
    requires NextDay(d).Some?
    ensures DayNumber(NextDay(d).value) == DayNumber(d) + 1
  {
    if d.day == DaysInMonth(d.year, d.month) && d.month == 12 {
      YearStep(d.year);
      LastMonthEndsYear(d.year);
    }
  }

  /** Each calendar day is the weekday after the previous one, so DayOfWeek
      is the weekday of the calendar and not merely some count mod 7. */
  lemma DayOfWeekAdvances(d: DateTime)
    requires NextDay(d).Some?
    ensures DayOfWeek(NextDay(d).value) == (DayOfWeek(d) + 1) % 7
  {
    NextDayNumber(d);
    WeekStep(DayNumber(d) + 1);
  }

  lemma WeekStep(n: int)
    ensures (n + 1) % 7 == (n % 7 + 1) % 7
  {
  }

  /** 0001-01-01 was a Monday and 2024-01-06 a Saturday. */
  lemma KnownWeekdays()
    ensures DayOfWeek(MinValue) == 1
    ensures DayOfWeek(DateTimeValue(2024, 1, 6, 0)) == Saturday
  {
    assert DayNumber(MinValue) == 0;
    assert DaysBeforeYear(2024) == 738885 by {
      DivOfDecomposition(2023, 4, 505, 3);
      DivOfDecomposition(2023, 100, 20, 23);
      DivOfDecomposition(2023, 400, 5, 23);
    }
    assert DayNumber(DateTimeValue(2024, 1, 6, 0)) == 738890;
    assert 738891 % 7 == 6 by {
      DivOfDecomposition(738891, 7, 105555, 6);
    }
  }

  // ---------------------------------------------------------------------
  // Whole-month arithmetic, the year and month of DateTime.AddMonths.

  datatype YearMonth = YearMonth(year: int, month: int)

  predicate ValidMonth(ym: YearMonth) {
    1 <= ym.year <= 9999 && 1 <= ym.month <= 12
  }

  /** Months since January of year 0. */
  function MonthOrdinal(ym: YearMonth): int {
    ym.year * 12 + ym.month - 1
  }

  /** Strictly later in (year, month) order. */
  predicate Later(a: YearMonth, b: YearMonth) {
    a.year > b.year || (a.year == b.year && a.month > b.month)
  }

  function MonthOf(d: DateTime): YearMonth {
    YearMonth(d.year, d.month)
  }

  /** The year and month of `d.AddMonths(months)`, which throws when `months`
      lies outside [-120000, 120000] or the result leaves years 1 to 9999. */
  function AddMonths(ym: YearMonth, months: int): (r: Option<YearMonth>)
    requires ValidMonth(ym)
    ensures r.Some? ==> ValidMonth(r.value) && MonthOrdinal(r.value) == MonthOrdinal(ym) + months
    ensures r.None? <==>
      || months < -120000 || months > 120000
      || MonthOrdinal(ym) + months < MonthOrdinal(YearMonth(1, 1))
      || MonthOrdinal(ym) + months > MonthOrdinal(YearMonth(9999, 12))
  {
    if months < -120000 || months > 120000 then None
    else
      var i := ym.year * 12 + ym.month - 1 + months;
      if i < 12 || i >= 120000 then None
      else Some(YearMonth(i / 12, i % 12 + 1))
  }

  /** The month before, with January going back to December of the year before. */
  function MonthBefore(ym: YearMonth): YearMonth {
    if ym.month == 1 then YearMonth(ym.year - 1, 12) else YearMonth(ym.year, ym.month - 1)
  }

  /** A month earlier is December of the previous year in January and the
      previous month of the same year otherwise. */
  lemma PreviousMonth(ym: YearMonth)
    requires ValidMonth(ym) && ym != YearMonth(1, 1)
    ensures AddMonths(ym, -1) == Some(MonthBefore(ym))
  {
    var i := ym.year * 12 + ym.month - 1 - 1;
    if ym.month == 1 {
      DivOfDecomposition(i, 12, ym.year - 1, 11);
    } else {
      DivOfDecomposition(i, 12, ym.year, ym.month - 2);
    }
  }
}
