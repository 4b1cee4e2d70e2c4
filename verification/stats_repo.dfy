/** StatsRepo: the USD earnings of the stored fees, grouped by the calendar
    month of their ParkingDate. The fee documents are the list the session
    query returns; only their ParkingDate and PaymentResult are read. */
module StatsRepo {
  import opened Wrappers
  import opened Sequences
  import opened Calendar
  import opened Models

  /** The query's row: one month and the sum of its fees' USD amounts. */
  datatype MonthlyEarnings = MonthlyEarnings(year: int, month: int, totalEarnings: real)

  /** The `(DateTime monthYear, decimal totalEarnings)` tuples handed to callers. */
  datatype MonthTotal = MonthTotal(monthYear: DateTime, totalEarnings: real)

  /** The inclusive bounds `fee.ParkingDate` is compared with. */
  datatype Window = Window(from: DateTime, to: DateTime)

  /** What enumerating the query yields: the bounds could not be built (thrown
      before the query runs), some included fee has no PaymentResult (thrown
      while summing), or the grouped rows. */
  datatype Query =
    | BadWindow
    | MissingPayment
    | Series(entries: seq<MonthlyEarnings>)

  function Key(e: MonthlyEarnings): YearMonth {
    YearMonth(e.year, e.month)
  }

  /** Midnight on the first day of a month. */
  function MonthStart(ym: YearMonth): (d: DateTime)
    requires ValidMonth(ym)
    ensures MonthOf(d) == ym && d.day == 1 && d.tick == 0
  {
    DateTimeValue(ym.year, ym.month, 1, 0)
  }

  /** Midnight on the last day of a month. */
  function MonthEnd(ym: YearMonth): (d: DateTime)
    requires ValidMonth(ym)
    ensures MonthOf(d) == ym && d.tick == 0
  {
    DateTimeValue(ym.year, ym.month, DaysInMonth(ym.year, ym.month), 0)
  }

  /** `new DateTime(fromYear, fromMonth, 1)` and
      `new DateTime(toYear, toMonth, 1).AddMonths(1).AddDays(-1)`: None where
      either constructor or AddMonths throws. */
  function QueryWindow(fromMonth: int, fromYear: int, toMonth: int, toYear: int): (r: Option<Window>)
    ensures r.Some? <==>
      && ValidMonth(YearMonth(fromYear, fromMonth)) && ValidMonth(YearMonth(toYear, toMonth))
      && YearMonth(toYear, toMonth) != YearMonth(9999, 12)
    ensures r.Some? ==>
      && r.value.from == MonthStart(YearMonth(fromYear, fromMonth))
      && r.value.to == MonthEnd(YearMonth(toYear, toMonth))
  {
    match Midnight(fromYear, fromMonth, 1)
    case None => None
    case Some(fromDate) =>
      match Midnight(toYear, toMonth, 1)
      case None => None
      case Some(toFirst) =>
        var toMonthYm := MonthOf(toFirst);
        match AddMonths(toMonthYm, 1)
        case None => None
        case Some(next) =>
          LastDayPrecedesNextMonth(toMonthYm);
          Some(Window(fromDate, MonthEnd(toMonthYm)))
  }

  /** The upper bound is the day before the first of the following month,
      which is what `AddMonths(1).AddDays(-1)` computes. */
  lemma LastDayPrecedesNextMonth(ym: YearMonth)
    requires ValidMonth(ym) && ym != YearMonth(9999, 12)
    ensures AddMonths(ym, 1).Some? && ValidMonth(AddMonths(ym, 1).value)
    ensures NextDay(MonthEnd(ym)) == Some(MonthStart(AddMonths(ym, 1).value))
  {
    var i := ym.year * 12 + ym.month - 1 + 1;
    if ym.month == 12 {
      DivOfDecomposition(i, 12, ym.year + 1, 0);
    } else {
      DivOfDecomposition(i, 12, ym.year, ym.month);
    }
  }

  /** `fee.ParkingDate >= fromDate && fee.ParkingDate <= toDate`. */
  predicate InWindow(w: Window, d: DateTime) {
    Ticks(w.from) <= Ticks(d) <= Ticks(w.to)
  }

  /** The fees the query keeps, in the order the session listed them. */
  function Included(w: Window, fees: seq<ParkingFee>): (r: seq<ParkingFee>)
    ensures |r| <= |fees|
    ensures forall i :: 0 <= i < |r| ==> r[i] in fees && InWindow(w, r[i].parkingDate)
    ensures forall i :: 0 <= i < |fees| && InWindow(w, fees[i].parkingDate) ==> fees[i] in r
  {
    if fees == [] then []
    else if InWindow(w, fees[0].parkingDate) then [fees[0]] + Included(w, fees[1..])
    else Included(w, fees[1..])
  }

  /** The filter keeps every copy of every fee in the window, and no other
      fee, in the order of the list: together with being a subsequence this
      pins the result down. */
  lemma {:induction false} IncludedKeepsEveryCopy(w: Window, fees: seq<ParkingFee>)
    ensures IsSubsequence(Included(w, fees), fees)
    ensures forall f :: multiset(Included(w, fees))[f] == if InWindow(w, f.parkingDate) then multiset(fees)[f] else 0
  {
    if fees != [] {
      assert fees == [fees[0]] + fees[1..];
      IncludedKeepsEveryCopy(w, fees[1..]);
    }
  }

  // ---------------------------------------------------------------------
  // Which fees the window admits.

  /** A date is in the window exactly when its month lies between the two
      months, except on the last day of the to-month after midnight: the upper
      bound is midnight of that day, so later times on it fall outside. */
  lemma WindowByMonth(fromMonth: int, fromYear: int, toMonth: int, toYear: int, d: DateTime)
    requires QueryWindow(fromMonth, fromYear, toMonth, toYear).Some?
    ensures InWindow(QueryWindow(fromMonth, fromYear, toMonth, toYear).value, d) <==>
      && MonthOrdinal(YearMonth(fromYear, fromMonth)) <= MonthOrdinal(MonthOf(d)) <= MonthOrdinal(YearMonth(toYear, toMonth))
      && !(MonthOf(d) == YearMonth(toYear, toMonth) && d.day == DaysInMonth(toYear, toMonth) && d.tick > 0)
  {
    var w := QueryWindow(fromMonth, fromYear, toMonth, toYear).value;
    TicksOrder(w.from, d);
    TicksOrder(d, w.to);
  }

  /** For dates at midnight, the window is the inclusive range of months. */
  lemma MidnightWindowIsMonthRange(fromMonth: int, fromYear: int, toMonth: int, toYear: int, d: DateTime)
    requires QueryWindow(fromMonth, fromYear, toMonth, toYear).Some?
    requires d.tick == 0
    ensures InWindow(QueryWindow(fromMonth, fromYear, toMonth, toYear).value, d) <==>
      !Later(YearMonth(fromYear, fromMonth), MonthOf(d)) && !Later(MonthOf(d), YearMonth(toYear, toMonth))
  {
    WindowByMonth(fromMonth, fromYear, toMonth, toYear, d);
  }

  /** A one-month window admits only dates in that month. */
  lemma SingleMonthWindow(month: int, year: int, d: DateTime)
    requires QueryWindow(month, year, month, year).Some?
    requires InWindow(QueryWindow(month, year, month, year).value, d)
    ensures MonthOf(d) == YearMonth(year, month)
  {
    WindowByMonth(month, year, month, year, d);
  }

  // ---------------------------------------------------------------------
  // The per-month sums the grouping must produce, defined fee by fee.

  /** Every fee carries a PaymentResult, so summing never dereferences null. */
  predicate Paid(fees: seq<ParkingFee>) {
    forall i :: 0 <= i < |fees| ==> fees[i].paymentResult.Some?
  }

  /** `fee.PaymentResult.AmountUsd`; only read on fees that are Paid. */
  function AmountUsd(fee: ParkingFee): real {
    if fee.paymentResult.Some? then fee.paymentResult.value.amountUsd else 0.0
  }

  /** The months some fee falls in. */
  function Months(fees: seq<ParkingFee>): set<YearMonth> {
    if fees == [] then {} else {MonthOf(fees[0].parkingDate)} + Months(fees[1..])
  }

  /** The USD total of the fees in one month. */
  function MonthSum(fees: seq<ParkingFee>, ym: YearMonth): real {
    if fees == [] then 0.0
    else (if MonthOf(fees[0].parkingDate) == ym then AmountUsd(fees[0]) else 0.0) + MonthSum(fees[1..], ym)
  }

  /** The USD total of all the fees. */
  function TotalUsd(fees: seq<ParkingFee>): real {
    if fees == [] then 0.0 else AmountUsd(fees[0]) + TotalUsd(fees[1..])
  }

  // ---------------------------------------------------------------------
  // The grouped series: GroupBy (year, month), Sum, OrderByDescending(Year)
  // ThenByDescending(Month).

  /** Strictly descending by (year, month), so no month appears twice. */
  predicate Descending(s: seq<MonthlyEarnings>) {
    forall i, j :: 0 <= i < j < |s| ==> Later(Key(s[i]), Key(s[j]))
  }

  /** Every row names a real calendar month. */
  predicate ValidKeys(s: seq<MonthlyEarnings>) {
    forall i :: 0 <= i < |s| ==> ValidMonth(Key(s[i]))
  }

  /** Every row is for a month strictly before `bound`. */
  predicate Below(bound: YearMonth, s: seq<MonthlyEarnings>) {
    forall i :: 0 <= i < |s| ==> Later(bound, Key(s[i]))
  }

  function KeySet(s: seq<MonthlyEarnings>): set<YearMonth> {
    if s == [] then {} else {Key(s[0])} + KeySet(s[1..])
  }

  /** The total the series reports for a month, 0 when it has no row for it. */
  function Lookup(s: seq<MonthlyEarnings>, ym: YearMonth): real {
    if s == [] then 0.0
    else (if Key(s[0]) == ym then s[0].totalEarnings else 0.0) + Lookup(s[1..], ym)
  }

  function SumTotals(s: seq<MonthlyEarnings>): real {
    if s == [] then 0.0 else s[0].totalEarnings + SumTotals(s[1..])
  }

  /** Adds one fee's amount to its month's row, opening the row in its place
      in the descending order when the month has none yet. */
  function Insert(s: seq<MonthlyEarnings>, ym: YearMonth, amount: real): (r: seq<MonthlyEarnings>)
    requires Descending(s)
    ensures Descending(r)
    ensures KeySet(r) == KeySet(s) + {ym}
    ensures forall b :: Later(b, ym) && Below(b, s) ==> Below(b, r)
    ensures forall k :: Lookup(r, k) == Lookup(s, k) + (if k == ym then amount else 0.0)
    ensures SumTotals(r) == SumTotals(s) + amount
    ensures ValidKeys(s) && ValidMonth(ym) ==> ValidKeys(r)
    decreases |s|
  {
    if s == [] then [MonthlyEarnings(ym.year, ym.month, amount)]
    else if Key(s[0]) == ym then
      assert KeySet(s) == {ym} + KeySet(s[1..]);
      assert Below(ym, s[1..]) by { assert forall i :: 0 <= i < |s[1..]| ==> s[1..][i] == s[i + 1]; }
      var r := [s[0].(totalEarnings := s[0].totalEarnings + amount)] + s[1..];
      assert r[1..] == s[1..];
      r
    else if Later(ym, Key(s[0])) then
      var r := [MonthlyEarnings(ym.year, ym.month, amount)] + s;
      assert r[1..] == s;
      r
    else
      assert Below(Key(s[0]), s[1..]) by { assert forall i :: 0 <= i < |s[1..]| ==> s[1..][i] == s[i + 1]; }
      var tail := Insert(s[1..], ym, amount);
      var r := [s[0]] + tail;
      assert r[1..] == tail;
      assert Below(Key(s[0]), tail);
      r
  }

  /** Groups the fees by month, summing their USD amounts. */
  function Aggregate(fees: seq<ParkingFee>): (r: seq<MonthlyEarnings>)
    ensures Descending(r) && ValidKeys(r)
    ensures KeySet(r) == Months(fees)
    ensures forall k :: Lookup(r, k) == MonthSum(fees, k)
    ensures SumTotals(r) == TotalUsd(fees)
  {
    if fees == [] then []
    else Insert(Aggregate(fees[1..]), MonthOf(fees[0].parkingDate), AmountUsd(fees[0]))
  }

  /** The query behind both public methods. */
  function EarningsQuery(fromMonth: int, fromYear: int, toMonth: int, toYear: int, fees: seq<ParkingFee>): (q: Query)
    ensures q.BadWindow? <==> QueryWindow(fromMonth, fromYear, toMonth, toYear).None?
    ensures q.MissingPayment? <==>
      QueryWindow(fromMonth, fromYear, toMonth, toYear).Some?
      && !Paid(Included(QueryWindow(fromMonth, fromYear, toMonth, toYear).value, fees))
    ensures q.Series? ==>
      var included := Included(QueryWindow(fromMonth, fromYear, toMonth, toYear).value, fees);
      && Descending(q.entries) && ValidKeys(q.entries)
      && KeySet(q.entries) == Months(included)
      && (forall k :: Lookup(q.entries, k) == MonthSum(included, k))
      && SumTotals(q.entries) == TotalUsd(included)
  {
    match QueryWindow(fromMonth, fromYear, toMonth, toYear)
    case None => BadWindow
    case Some(w) =>
      var included := Included(w, fees);
      if !Paid(included) then MissingPayment else Series(Aggregate(included))
  }

  // ---------------------------------------------------------------------
  // Facts about a descending series.

  /** In a descending series a row's total is the series' total for its month. */
  lemma {:induction false} RowIsLookup(s: seq<MonthlyEarnings>, i: int)
    requires Descending(s) && 0 <= i < |s|
    ensures s[i].totalEarnings == Lookup(s, Key(s[i]))
  {
    if i == 0 {
      LookupAbsent(s[1..], Key(s[0]));
    } else {
      RowIsLookup(s[1..], i - 1);
      assert s[1..][i - 1] == s[i];
    }
  }

  /** A month with no row has total 0. */
  lemma {:induction false} LookupAbsent(s: seq<MonthlyEarnings>, ym: YearMonth)
    requires forall i :: 0 <= i < |s| ==> Key(s[i]) != ym
    ensures Lookup(s, ym) == 0.0
  {
    if s != [] {
      LookupAbsent(s[1..], ym);
    }
  }

  /** KeySet holds exactly the rows' months. */
  lemma {:induction false} KeySetRows(s: seq<MonthlyEarnings>, ym: YearMonth)
    ensures ym in KeySet(s) <==> exists i :: 0 <= i < |s| && Key(s[i]) == ym
  {
    if s != [] {
      KeySetRows(s[1..], ym);
      if ym in KeySet(s[1..]) {
        var i :| 0 <= i < |s[1..]| && Key(s[1..][i]) == ym;
        assert Key(s[i + 1]) == ym;
      }
      if exists i :: 0 <= i < |s| && Key(s[i]) == ym {
        var i :| 0 <= i < |s| && Key(s[i]) == ym;
        if i > 0 {
          assert Key(s[1..][i - 1]) == ym;
        }
      }
    }
  }

  /** Months holds exactly the fees' months. */
  lemma {:induction false} MonthsOfFees(fees: seq<ParkingFee>, ym: YearMonth)
    ensures ym in Months(fees) <==> exists i :: 0 <= i < |fees| && MonthOf(fees[i].parkingDate) == ym
  {
    if fees != [] {
      MonthsOfFees(fees[1..], ym);
      if ym in Months(fees[1..]) {
        var i :| 0 <= i < |fees[1..]| && MonthOf(fees[1..][i].parkingDate) == ym;
        assert MonthOf(fees[i + 1].parkingDate) == ym;
      }
      if exists i :: 0 <= i < |fees| && MonthOf(fees[i].parkingDate) == ym {
        var i :| 0 <= i < |fees| && MonthOf(fees[i].parkingDate) == ym;
        if i > 0 {
          assert MonthOf(fees[1..][i - 1].parkingDate) == ym;
        }
      }
    }
  }

  /** The grouped series: one row per month that has an included fee and no
      other, each with that month's USD sum, strictly descending. */
  lemma SeriesRows(fromMonth: int, fromYear: int, toMonth: int, toYear: int, fees: seq<ParkingFee>)
    requires EarningsQuery(fromMonth, fromYear, toMonth, toYear, fees).Series?
    ensures var q := EarningsQuery(fromMonth, fromYear, toMonth, toYear, fees);
      var included := Included(QueryWindow(fromMonth, fromYear, toMonth, toYear).value, fees);
      && (forall i, j :: 0 <= i < j < |q.entries| ==> Key(q.entries[i]) != Key(q.entries[j]))
      && (forall i :: 0 <= i < |q.entries| ==> q.entries[i].totalEarnings == MonthSum(included, Key(q.entries[i])))
      && (forall i :: 0 <= i < |q.entries| ==> exists f :: f in included && MonthOf(f.parkingDate) == Key(q.entries[i]))
      && (forall f :: f in included ==> exists i :: 0 <= i < |q.entries| && Key(q.entries[i]) == MonthOf(f.parkingDate))
  {
    var q := EarningsQuery(fromMonth, fromYear, toMonth, toYear, fees);
    var included := Included(QueryWindow(fromMonth, fromYear, toMonth, toYear).value, fees);
    RowTotals(q.entries, included);
    RowsHaveFees(q.entries, included);
    FeesHaveRows(q.entries, included);
  }

  lemma RowTotals(s: seq<MonthlyEarnings>, fees: seq<ParkingFee>)
    requires Descending(s)
    requires forall k :: Lookup(s, k) == MonthSum(fees, k)
    ensures forall i :: 0 <= i < |s| ==> s[i].totalEarnings == MonthSum(fees, Key(s[i]))
  {
    forall i | 0 <= i < |s|
      ensures s[i].totalEarnings == MonthSum(fees, Key(s[i]))
    {
      RowIsLookup(s, i);
    }
  }

  lemma RowsHaveFees(s: seq<MonthlyEarnings>, fees: seq<ParkingFee>)
    requires KeySet(s) == Months(fees)
    ensures forall i :: 0 <= i < |s| ==> exists f :: f in fees && MonthOf(f.parkingDate) == Key(s[i])
  {
    forall i | 0 <= i < |s|
      ensures exists f :: f in fees && MonthOf(f.parkingDate) == Key(s[i])
    {
      KeySetRows(s, Key(s[i]));
      MonthsOfFees(fees, Key(s[i]));
      var j :| 0 <= j < |fees| && MonthOf(fees[j].parkingDate) == Key(s[i]);
      assert fees[j] in fees;
    }
  }

  lemma FeesHaveRows(s: seq<MonthlyEarnings>, fees: seq<ParkingFee>)
    requires KeySet(s) == Months(fees)
    ensures forall f :: f in fees ==> exists i :: 0 <= i < |s| && Key(s[i]) == MonthOf(f.parkingDate)
  {
    forall f | f in fees
      ensures exists i :: 0 <= i < |s| && Key(s[i]) == MonthOf(f.parkingDate)
    {
      var j :| 0 <= j < |fees| && fees[j] == f;
      MonthsOfFees(fees, MonthOf(f.parkingDate));
      KeySetRows(s, MonthOf(f.parkingDate));
    }
  }

  /** A month with no fee sums to 0. */
  lemma {:induction false} AbsentMonthSum(fees: seq<ParkingFee>, ym: YearMonth)
    requires ym !in Months(fees)
    ensures MonthSum(fees, ym) == 0.0
  {
    if fees != [] {
      AbsentMonthSum(fees[1..], ym);
    }
  }

  /** Two windows that agree on the dates of one month give that month the
      same fees, hence the same sum. */
  lemma {:induction false} SameMonthInBothWindows(w1: Window, w2: Window, fees: seq<ParkingFee>, ym: YearMonth)
    requires forall i :: 0 <= i < |fees| && MonthOf(fees[i].parkingDate) == ym ==>
      (InWindow(w1, fees[i].parkingDate) <==> InWindow(w2, fees[i].parkingDate))
    ensures MonthSum(Included(w1, fees), ym) == MonthSum(Included(w2, fees), ym)
    ensures ym in Months(Included(w1, fees)) <==> ym in Months(Included(w2, fees))
  {
    if fees != [] {
      assert forall i :: 0 <= i < |fees[1..]| ==> fees[1..][i] == fees[i + 1];
      SameMonthInBothWindows(w1, w2, fees[1..], ym);
    }
  }

  /** A narrower window keeps only fees the wider one keeps, so if the wider
      one has no fee without payment, neither has the narrower. */
  lemma NarrowerWindowPaid(w1: Window, w2: Window, fees: seq<ParkingFee>)
    requires forall i :: 0 <= i < |fees| && InWindow(w1, fees[i].parkingDate) ==> InWindow(w2, fees[i].parkingDate)
    requires Paid(Included(w2, fees))
    ensures Paid(Included(w1, fees))
  {
    var r1, r2 := Included(w1, fees), Included(w2, fees);
    forall i | 0 <= i < |r1|
      ensures r1[i].paymentResult.Some?
    {
      var j :| 0 <= j < |fees| && fees[j] == r1[i];
      assert fees[j] in r2;
    }
  }

  // ---------------------------------------------------------------------
  // The public methods.

  /** GetTotalEarningsAsync(month, year): the first row of the one-month
      query, or null. Bounds that cannot be built throw to the caller; a fee
      without PaymentResult is caught and answered with null. */
  function GetTotalEarningsAsync(month: int, year: int, fees: seq<ParkingFee>): (r: Result<Option<MonthTotal>, string>)
    ensures r.Failure? <==> QueryWindow(month, year, month, year).None?
    ensures r.Success? ==>
      var included := Included(QueryWindow(month, year, month, year).value, fees);
      && (r.value.Some? <==> Paid(included) && included != [])
      && (r.value.Some? ==>
            && r.value.value.monthYear == MonthStart(YearMonth(year, month))
            && r.value.value.totalEarnings == MonthSum(included, YearMonth(year, month))
            && r.value.value.totalEarnings == TotalUsd(included))
  {
    match EarningsQuery(month, year, month, year, fees)
    case BadWindow => Failure("The month and year do not form a valid date range.")
    case MissingPayment => Success(None)
    case Series(entries) =>
      var included := Included(QueryWindow(month, year, month, year).value, fees);
      OneMonthSeries(month, year, fees);
      if entries == [] then
        Success(None)
      else
        var first := entries[0];
        Success(Some(MonthTotal(MonthStart(Key(first)), first.totalEarnings)))
  }

  /** The one-month query has at most one row, for that month, holding the
      sum of every included fee. */
  lemma OneMonthSeries(month: int, year: int, fees: seq<ParkingFee>)
    requires EarningsQuery(month, year, month, year, fees).Series?
    ensures var entries := EarningsQuery(month, year, month, year, fees).entries;
      var included := Included(QueryWindow(month, year, month, year).value, fees);
      && (entries == [] <==> included == [])
      && (entries != [] ==>
            && Key(entries[0]) == YearMonth(year, month)
            && entries[0].totalEarnings == MonthSum(included, YearMonth(year, month))
            && entries[0].totalEarnings == TotalUsd(included))
  {
    var entries := EarningsQuery(month, year, month, year, fees).entries;
    var w := QueryWindow(month, year, month, year).value;
    var included := Included(w, fees);
    var ym := YearMonth(year, month);
    forall i | 0 <= i < |included|
      ensures MonthOf(included[i].parkingDate) == ym
    {
      SingleMonthWindow(month, year, included[i].parkingDate);
    }
    OnlyMonthSums(included, ym);
    if included != [] {
      MonthsOfFees(included, MonthOf(included[0].parkingDate));
      assert ym in KeySet(entries);
    }
    if entries != [] {
      KeySetRows(entries, Key(entries[0]));
      MonthsOfFees(included, Key(entries[0]));
      RowIsLookup(entries, 0);
    }
  }

  /** Fees all in one month sum to that month's total. */
  lemma {:induction false} OnlyMonthSums(fees: seq<ParkingFee>, ym: YearMonth)
    requires forall i :: 0 <= i < |fees| ==> MonthOf(fees[i].parkingDate) == ym
    ensures MonthSum(fees, ym) == TotalUsd(fees)
  {
    if fees != [] {
      OnlyMonthSums(fees[1..], ym);
    }
  }

  /** GetTotalEarningsListAsync: the rows as (first of month, total) in the
      query's order; [] when there are none or anything throws. */
  function GetTotalEarningsListAsync(fromMonth: int, fromYear: int, toMonth: int, toYear: int,
                                     fees: seq<ParkingFee>): (r: seq<MonthTotal>)
    ensures var q := EarningsQuery(fromMonth, fromYear, toMonth, toYear, fees);
      && (!q.Series? ==> r == [])
      && (q.Series? ==>
            && |r| == |q.entries|
            && forall i :: 0 <= i < |r| ==>
                 && MonthOf(r[i].monthYear) == Key(q.entries[i]) && r[i].monthYear.day == 1 && r[i].monthYear.tick == 0
                 && r[i].totalEarnings == q.entries[i].totalEarnings)
  {
    match EarningsQuery(fromMonth, fromYear, toMonth, toYear, fees)
    case BadWindow => []
    case MissingPayment => []
    case Series(entries) =>
      seq(|entries|, i requires 0 <= i < |entries| => MonthTotal(MonthStart(Key(entries[i])), entries[i].totalEarnings))
  }

  /** The list runs strictly backwards in time. */
  lemma ListDescending(fromMonth: int, fromYear: int, toMonth: int, toYear: int, fees: seq<ParkingFee>)
    ensures var r := GetTotalEarningsListAsync(fromMonth, fromYear, toMonth, toYear, fees);
      forall i, j :: 0 <= i < j < |r| ==> Ticks(r[j].monthYear) < Ticks(r[i].monthYear)
  {
    var r := GetTotalEarningsListAsync(fromMonth, fromYear, toMonth, toYear, fees);
    var q := EarningsQuery(fromMonth, fromYear, toMonth, toYear, fees);
    forall i, j | 0 <= i < j < |r|
      ensures Ticks(r[j].monthYear) < Ticks(r[i].monthYear)
    {
      assert Later(Key(q.entries[i]), Key(q.entries[j]));
      TicksOrder(r[j].monthYear, r[i].monthYear);
    }
  }

  /** Fees of 10 and 20 USD in January and 5 USD in February give the
      series February 5, then January 30. */
  lemma TwoMonthSeries(jan1: DateTime, jan2: DateTime, feb: DateTime)
    requires MonthOf(jan1) == YearMonth(2024, 1) && MonthOf(jan2) == YearMonth(2024, 1)
    requires MonthOf(feb) == YearMonth(2024, 2)
    requires jan1.tick == 0 && jan2.tick == 0 && feb.tick == 0
    ensures var fees := [
        ParkingFee(None, Some("area"), jan1, jan1, jan1, Some(PaymentResult(10.0, 0.0, 0.0))),
        ParkingFee(None, Some("area"), jan2, jan2, jan2, Some(PaymentResult(20.0, 0.0, 0.0))),
        ParkingFee(None, Some("area"), feb, feb, feb, Some(PaymentResult(5.0, 0.0, 0.0)))];
      EarningsQuery(1, 2024, 2, 2024, fees) == Series([MonthlyEarnings(2024, 2, 5.0), MonthlyEarnings(2024, 1, 30.0)])
  {
    var fees := [
        ParkingFee(None, Some("area"), jan1, jan1, jan1, Some(PaymentResult(10.0, 0.0, 0.0))),
        ParkingFee(None, Some("area"), jan2, jan2, jan2, Some(PaymentResult(20.0, 0.0, 0.0))),
        ParkingFee(None, Some("area"), feb, feb, feb, Some(PaymentResult(5.0, 0.0, 0.0)))];
    var w := QueryWindow(1, 2024, 2, 2024).value;
    MidnightWindowIsMonthRange(1, 2024, 2, 2024, jan1);
    MidnightWindowIsMonthRange(1, 2024, 2, 2024, jan2);
    MidnightWindowIsMonthRange(1, 2024, 2, 2024, feb);
    assert fees[1..][1..] == [fees[2]];
    assert Included(w, fees) == fees;
    var jan := YearMonth(2024, 1);
    var f5, j20 := MonthlyEarnings(2024, 2, 5.0), MonthlyEarnings(2024, 1, 20.0);
    assert Aggregate([fees[2]]) == [f5] by {
      assert [fees[2]][1..] == [];
    }
    assert Aggregate(fees[1..]) == Insert([f5], jan, 20.0);
    assert Insert([f5], jan, 20.0) == [f5] + Insert([], jan, 20.0) by {
      assert [f5][1..] == [];
    }
    assert Aggregate(fees) == Insert([f5, j20], jan, 10.0);
    assert Insert([f5, j20], jan, 10.0) == [f5] + Insert([j20], jan, 10.0) by {
      assert [f5, j20][1..] == [j20];
    }
    assert Insert([j20], jan, 10.0) == [MonthlyEarnings(2024, 1, 30.0)] by {
      assert [j20][1..] == [];
    }
  }
}
