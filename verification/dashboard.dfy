/** DashboardController.GetDashboardData: counts and USD earnings for the
    dashboard. The clock reading `DateTime.Now` is the parameter `now`; the
    area documents are a store and the fee documents the list the session
    query returns. */
module DashboardController {
  import opened Wrappers
  import opened Calendar
  import opened Models
  import opened BaseRepo
  import opened Actions
  import opened StatsRepo

  datatype ParkingHistoryPayment = ParkingHistoryPayment(month: int, year: int, amountInUsd: real)

  datatype DashboardData = DashboardData(
    totalParkingAreas: int,
    totalParkingFees: int,
    totalParkingAreasActive: int,
    lastMonthEarningsTotalUsd: real,
    currentMonthEarningsTotalUsd: real,
    parkingHistoryPayments: seq<ParkingHistoryPayment>)

  const ErrorPrefix: string := "An error occurred while retrieving dashboard data: "

  function IsActive(area: ParkingArea): bool { area.isActive }

  /** `info?.totalEarnings ?? 0`: a month without data reads as zero. */
  function Figure(info: Option<MonthTotal>): (r: real)
    ensures info.None? ==> r == 0.0
    ensures info.Some? ==> r == info.value.totalEarnings
  {
    match info
    case None => 0.0
    case Some(t) => t.totalEarnings
  }

  /** The USD figure shown for one month: its fees' sum, or zero when the
      query found none or met a fee without payment. */
  function MonthFigure(ym: YearMonth, fees: seq<ParkingFee>): real
    requires QueryWindow(ym.month, ym.year, ym.month, ym.year).Some?
  {
    var included := Included(QueryWindow(ym.month, ym.year, ym.month, ym.year).value, fees);
    if Paid(included) then MonthSum(included, ym) else 0.0
  }

  function ToHistory(t: MonthTotal): (p: ParkingHistoryPayment)
    ensures p.month == t.monthYear.month && p.year == t.monthYear.year && p.amountInUsd == t.totalEarnings
  {
    ParkingHistoryPayment(t.monthYear.month, t.monthYear.year, t.totalEarnings)
  }

  /** The history window's first month, six before `now`'s. */
  function HistoryStart(now: DateTime): Option<YearMonth> {
    AddMonths(MonthOf(now), -6)
  }

  /** GET api/dashboard. Fails with 500 when a month boundary it needs falls
      outside years 1 to 9999; otherwise reports the counts, last and current
      month's earnings and the seven-month history. */
  function GetDashboardData(now: DateTime, areas: Store<ParkingArea>, fees: seq<ParkingFee>): (r: ActionResult<DashboardData>)
    ensures r.Ok? || r == Status(500, ErrorPrefix)
    ensures r.Status? <==> MonthOrdinal(MonthOf(now)) < MonthOrdinal(YearMonth(1, 7)) || MonthOf(now) == YearMonth(9999, 12)
    ensures r.Ok? ==> HistoryStart(now).Some? && Reports(now, areas, fees, r.value)
  {
    var nowYm := MonthOf(now);
    match AddMonths(nowYm, -1)
    case None => Status(500, ErrorPrefix)
    case Some(monthAgo) =>
      PreviousMonth(nowYm);
      assert monthAgo == MonthBefore(nowYm);
      match AddMonths(nowYm, -6)
      case None => Status(500, ErrorPrefix)
      case Some(sixMonthsAgo) =>
        match GetTotalEarningsAsync(monthAgo.month, monthAgo.year, fees)
        case Failure(_) => Status(500, ErrorPrefix)
        case Success(lastMonthInfo) =>
          match GetTotalEarningsAsync(nowYm.month, nowYm.year, fees)
          case Failure(_) => Status(500, ErrorPrefix)
          case Success(currentMonthInfo) =>
            Ok(Assemble(now, sixMonthsAgo, areas, fees, lastMonthInfo, currentMonthInfo))
  }

  /** What a successful dashboard reports. */
  ghost predicate Reports(now: DateTime, areas: Store<ParkingArea>, fees: seq<ParkingFee>, d: DashboardData)
    requires HistoryStart(now).Some?
  {
    var nowYm := MonthOf(now);
    var six := HistoryStart(now).value;
    var history := GetTotalEarningsListAsync(six.month, six.year, nowYm.month, nowYm.year, fees);
    && nowYm != YearMonth(9999, 12)
    && d.totalParkingAreas == Count(areas)
    && d.totalParkingFees == |fees|
    && d.totalParkingAreasActive == CountWhere(areas, IsActive) <= d.totalParkingAreas
    && d.lastMonthEarningsTotalUsd == MonthFigure(MonthBefore(nowYm), fees)
    && d.currentMonthEarningsTotalUsd == MonthFigure(nowYm, fees)
    && MonthOrdinal(nowYm) - MonthOrdinal(six) == 6
    && |d.parkingHistoryPayments| == |history|
    && forall i :: 0 <= i < |history| ==> d.parkingHistoryPayments[i] == ToHistory(history[i])
  }

  /** The DashboardData object of a run whose queries all returned. */
  function Assemble(now: DateTime, sixMonthsAgo: YearMonth, areas: Store<ParkingArea>, fees: seq<ParkingFee>,
                    lastMonthInfo: Option<MonthTotal>, currentMonthInfo: Option<MonthTotal>): (d: DashboardData)
    requires HistoryStart(now) == Some(sixMonthsAgo) && MonthOf(now) != YearMonth(9999, 12)
    requires lastMonthInfo == GetTotalEarningsAsync(MonthBefore(MonthOf(now)).month, MonthBefore(MonthOf(now)).year, fees).value
    requires currentMonthInfo == GetTotalEarningsAsync(now.month, now.year, fees).value
    ensures Reports(now, areas, fees, d)
  {
    var nowYm := MonthOf(now);
    PreviousMonth(nowYm);
    FigureIsMonthFigure(MonthBefore(nowYm), fees);
    FigureIsMonthFigure(nowYm, fees);
    var history := GetTotalEarningsListAsync(sixMonthsAgo.month, sixMonthsAgo.year, nowYm.month, nowYm.year, fees);
    DashboardData(
      Count(areas),
      |fees|,
      CountWhere(areas, IsActive),
      Figure(lastMonthInfo),
      Figure(currentMonthInfo),
      seq(|history|, i requires 0 <= i < |history| => ToHistory(history[i])))
  }

  /** The figure read off GetTotalEarningsAsync is the month's sum. */
  lemma FigureIsMonthFigure(ym: YearMonth, fees: seq<ParkingFee>)
    requires QueryWindow(ym.month, ym.year, ym.month, ym.year).Some?
    ensures Figure(GetTotalEarningsAsync(ym.month, ym.year, fees).value) == MonthFigure(ym, fees)
  {
  }

  /** The windows of the one-month query for `ym` and of the history query
      agree on every date in `ym` when `ym` is the history's last month. */
  lemma CurrentWindowsAgree(six: YearMonth, ym: YearMonth, d: DateTime)
    requires ValidMonth(six) && MonthOrdinal(six) <= MonthOrdinal(ym)
    requires QueryWindow(ym.month, ym.year, ym.month, ym.year).Some?
    requires MonthOf(d) == ym
    ensures InWindow(QueryWindow(ym.month, ym.year, ym.month, ym.year).value, d)
        <==> InWindow(QueryWindow(six.month, six.year, ym.month, ym.year).value, d)
  {
    WindowByMonth(ym.month, ym.year, ym.month, ym.year, d);
    WindowByMonth(six.month, six.year, ym.month, ym.year, d);
  }

  /** A one-month figure equals the history row for that month when the
      one-month window keeps only fees the history window keeps and both keep
      the same fees of that month; with a non-empty history and no row for
      the month, the figure is 0. */
  lemma FigureMatchesSeries(six: YearMonth, to: YearMonth, ym: YearMonth, fees: seq<ParkingFee>)
    requires EarningsQuery(six.month, six.year, to.month, to.year, fees).Series?
    requires QueryWindow(ym.month, ym.year, ym.month, ym.year).Some?
    requires var w1 := QueryWindow(ym.month, ym.year, ym.month, ym.year).value;
      var w7 := QueryWindow(six.month, six.year, to.month, to.year).value;
      && (forall i :: 0 <= i < |fees| && InWindow(w1, fees[i].parkingDate) ==> InWindow(w7, fees[i].parkingDate))
      && (forall i :: 0 <= i < |fees| && MonthOf(fees[i].parkingDate) == ym ==>
            (InWindow(w1, fees[i].parkingDate) <==> InWindow(w7, fees[i].parkingDate)))
    ensures var entries := EarningsQuery(six.month, six.year, to.month, to.year, fees).entries;
      && (forall i :: 0 <= i < |entries| && Key(entries[i]) == ym ==> MonthFigure(ym, fees) == entries[i].totalEarnings)
      && ((forall i :: 0 <= i < |entries| ==> Key(entries[i]) != ym) ==> MonthFigure(ym, fees) == 0.0)
  {
    var w1 := QueryWindow(ym.month, ym.year, ym.month, ym.year).value;
    var w7 := QueryWindow(six.month, six.year, to.month, to.year).value;
    var entries := EarningsQuery(six.month, six.year, to.month, to.year, fees).entries;
    var included := Included(w7, fees);
    SameMonthInBothWindows(w1, w7, fees, ym);
    NarrowerWindowPaid(w1, w7, fees);
    RowTotals(entries, included);
    KeySetRows(entries, ym);
    if ym !in Months(included) {
      AbsentMonthSum(included, ym);
    }
  }

  /** The current-month figure agrees with the history: it is the history's
      entry for `now`'s month when there is one, and 0 when the history is
      non-empty but has no entry for that month. */
  lemma CurrentMonthMatchesHistory(now: DateTime, areas: Store<ParkingArea>, fees: seq<ParkingFee>)
    requires GetDashboardData(now, areas, fees).Ok?
    ensures var d := GetDashboardData(now, areas, fees).value;
      && (forall i :: 0 <= i < |d.parkingHistoryPayments|
            && d.parkingHistoryPayments[i].year == now.year && d.parkingHistoryPayments[i].month == now.month
            ==> d.currentMonthEarningsTotalUsd == d.parkingHistoryPayments[i].amountInUsd)
      && ((|d.parkingHistoryPayments| > 0
             && forall i :: 0 <= i < |d.parkingHistoryPayments|
                  ==> !(d.parkingHistoryPayments[i].year == now.year && d.parkingHistoryPayments[i].month == now.month))
            ==> d.currentMonthEarningsTotalUsd == 0.0)
  {
    var d := GetDashboardData(now, areas, fees).value;
    var nowYm := MonthOf(now);
    var six := HistoryStart(now).value;
    if |d.parkingHistoryPayments| > 0 {
      var w7 := QueryWindow(six.month, six.year, nowYm.month, nowYm.year).value;
      var w1 := QueryWindow(nowYm.month, nowYm.year, nowYm.month, nowYm.year).value;
      forall i | 0 <= i < |fees| && InWindow(w1, fees[i].parkingDate)
        ensures InWindow(w7, fees[i].parkingDate)
      {
        SingleMonthWindow(nowYm.month, nowYm.year, fees[i].parkingDate);
        CurrentWindowsAgree(six, nowYm, fees[i].parkingDate);
      }
      forall i | 0 <= i < |fees| && MonthOf(fees[i].parkingDate) == nowYm
        ensures InWindow(w1, fees[i].parkingDate) <==> InWindow(w7, fees[i].parkingDate)
      {
        CurrentWindowsAgree(six, nowYm, fees[i].parkingDate);
      }
      FigureMatchesSeries(six, nowYm, nowYm, fees);
    }
  }

  /** At midnight, a date in the month before `now`'s is in both the
      one-month window and the history window. */
  lemma PreviousWindowsAgree(six: YearMonth, nowYm: YearMonth, d: DateTime)
    requires ValidMonth(six) && MonthOrdinal(nowYm) - MonthOrdinal(six) == 6
    requires ValidMonth(nowYm) && nowYm != YearMonth(9999, 12) && nowYm != YearMonth(1, 1)
    requires d.tick == 0
    ensures var prev := MonthBefore(nowYm);
      && QueryWindow(prev.month, prev.year, prev.month, prev.year).Some?
      && (InWindow(QueryWindow(prev.month, prev.year, prev.month, prev.year).value, d) ==>
            InWindow(QueryWindow(six.month, six.year, nowYm.month, nowYm.year).value, d))
      && (MonthOf(d) == prev ==>
            && InWindow(QueryWindow(prev.month, prev.year, prev.month, prev.year).value, d)
            && InWindow(QueryWindow(six.month, six.year, nowYm.month, nowYm.year).value, d))
  {
    var prev := MonthBefore(nowYm);
    MidnightWindowIsMonthRange(prev.month, prev.year, prev.month, prev.year, d);
    MidnightWindowIsMonthRange(six.month, six.year, nowYm.month, nowYm.year, d);
  }

  /** With every ParkingDate at midnight, the last-month figure agrees with
      the history's entry for the month before `now`. */
  lemma LastMonthMatchesHistory(now: DateTime, areas: Store<ParkingArea>, fees: seq<ParkingFee>)
    requires GetDashboardData(now, areas, fees).Ok?
    requires forall i :: 0 <= i < |fees| ==> fees[i].parkingDate.tick == 0
    ensures var d := GetDashboardData(now, areas, fees).value;
      var prev := MonthBefore(MonthOf(now));
      forall i :: 0 <= i < |d.parkingHistoryPayments|
        && d.parkingHistoryPayments[i].year == prev.year && d.parkingHistoryPayments[i].month == prev.month
        ==> d.lastMonthEarningsTotalUsd == d.parkingHistoryPayments[i].amountInUsd
  {
    var d := GetDashboardData(now, areas, fees).value;
    var nowYm := MonthOf(now);
    var prev := MonthBefore(nowYm);
    var six := HistoryStart(now).value;
    if |d.parkingHistoryPayments| > 0 {
      var w7 := QueryWindow(six.month, six.year, nowYm.month, nowYm.year).value;
      var w1 := QueryWindow(prev.month, prev.year, prev.month, prev.year).value;
      forall i | 0 <= i < |fees|
        ensures InWindow(w1, fees[i].parkingDate) ==> InWindow(w7, fees[i].parkingDate)
        ensures MonthOf(fees[i].parkingDate) == prev ==>
          (InWindow(w1, fees[i].parkingDate) <==> InWindow(w7, fees[i].parkingDate))
      {
        PreviousWindowsAgree(six, nowYm, fees[i].parkingDate);
      }
      FigureMatchesSeries(six, nowYm, prev, fees);
    }
  }

  /** Every history entry lies in the seven months ending with `now`'s. */
  lemma HistoryWithinSevenMonths(now: DateTime, areas: Store<ParkingArea>, fees: seq<ParkingFee>)
    requires GetDashboardData(now, areas, fees).Ok?
    ensures var d := GetDashboardData(now, areas, fees).value;
      forall i :: 0 <= i < |d.parkingHistoryPayments| ==>
        var ym := YearMonth(d.parkingHistoryPayments[i].year, d.parkingHistoryPayments[i].month);
        MonthOrdinal(MonthOf(now)) - 6 <= MonthOrdinal(ym) <= MonthOrdinal(MonthOf(now))
  {
    var d := GetDashboardData(now, areas, fees).value;
    var nowYm := MonthOf(now);
    var six := HistoryStart(now).value;
    if |d.parkingHistoryPayments| > 0 {
      var w7 := QueryWindow(six.month, six.year, nowYm.month, nowYm.year).value;
      var q := EarningsQuery(six.month, six.year, nowYm.month, nowYm.year, fees);
      var included := Included(w7, fees);
      RowsHaveFees(q.entries, included);
      forall i | 0 <= i < |d.parkingHistoryPayments|
        ensures MonthOrdinal(nowYm) - 6 <= MonthOrdinal(Key(q.entries[i])) <= MonthOrdinal(nowYm)
      {
        var f :| f in included && MonthOf(f.parkingDate) == Key(q.entries[i]);
        WindowByMonth(six.month, six.year, nowYm.month, nowYm.year, f.parkingDate);
      }
    }
  }
}
