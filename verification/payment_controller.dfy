/** ParkingPaymentController.CalculatePayment, the fee preview. The rate
    service is the parameter `fetchHistorical`, standing for
    `currencyHost.GetHistorical`. */
module ParkingPaymentController {
  import opened Wrappers
  import opened Calendar
  import opened Money
  import opened Models
  import opened BaseRepo
  import opened Actions
  import opened RatesResponse
  import opened RatesCalculator
  import opened ExchangerHost

  const AreaNotFound: string := "Parking area not found."
  const InvalidDuration: string := "Invalid parking duration."
  const RatesUnavailable: string := "Failed to retrieve exchange rates."

  /** `(endTime - startTime).TotalHours`: the elapsed ticks in hours,
      positive exactly when the end is later. */
  function TotalHours(startTime: DateTime, endTime: DateTime): (h: real)
    ensures h * TicksPerHour as real == (Ticks(endTime) - Ticks(startTime)) as real
    ensures h > 0.0 <==> Ticks(startTime) < Ticks(endTime)
  {
    (Ticks(endTime) - Ticks(startTime)) as real / TicksPerHour as real
  }

  /** The weekend hourly rate on Saturdays and Sundays, the weekday one otherwise. */
  function BaseRateUsd(area: ParkingArea, date: DateTime): (r: real)
    ensures DayOfWeek(date) == 0 || DayOfWeek(date) == 6 ==> r == area.weekendHourlyRateUsd
    ensures 1 <= DayOfWeek(date) <= 5 ==> r == area.weekdaysHourlyRateUsd
    ensures area.weekdaysHourlyRateUsd >= 0.0 && area.weekendHourlyRateUsd >= 0.0 ==> r >= 0.0
  {
    if IsWeekend(date) then area.weekendHourlyRateUsd else area.weekdaysHourlyRateUsd
  }

  /** `1 - DiscountPercentage / 100`, with no range check. */
  function DiscountFactor(area: ParkingArea): (f: real)
    ensures 0.0 <= area.discountPercentage <= 100.0 <==> 0.0 <= f <= 1.0
    ensures f == 0.0 <==> area.discountPercentage == 100.0
    ensures f == 1.0 <==> area.discountPercentage == 0.0
  {
    1.0 - area.discountPercentage / 100.0
  }

  /** The loop over the converted rates: each currency's converted amount is
      passed to Calculate as its `rate`. */
  function PriceOutputs(baseRate: real, rates: map<string, real>, totalHours: real, discountFactor: real): (r: map<string, real>)
    ensures r.Keys == rates.Keys
    ensures forall c :: c in r ==> r[c] == Calculate(baseRate, rates[c], totalHours, discountFactor)
  {
    map c | c in rates :: Calculate(baseRate, rates[c], totalHours, discountFactor)
  }

  /** The charge for one currency as the action computes it: the base rate
      enters twice, once through the converted amount. */
  function Quoted(baseRate: real, rate: real, totalHours: real, discountFactor: real): real {
    Calculate(baseRate, Round2(baseRate * rate), totalHours, discountFactor)
  }

  /** The per-currency quote built from a snapshot's raw rates. */
  function QuoteAll(baseRate: real, rates: map<string, real>, totalHours: real, discountFactor: real): (r: map<string, real>)
    ensures r.Keys == rates.Keys
    ensures forall c :: c in r ==> r[c] == Quoted(baseRate, rates[c], totalHours, discountFactor)
  {
    PriceOutputs(baseRate, ConvertRates(baseRate, rates), totalHours, discountFactor)
  }

  /** The snapshot for `date`, converted: a failed fetch and an unusable
      snapshot are both a failure. */
  function FetchAndPrice(baseRate: real, date: DateTime, totalHours: real, discountFactor: real,
                         fetchHistorical: DateTime -> Result<ExchangeRatesResponse, HostError>)
    : (r: Result<map<string, real>, string>)
    ensures r.Failure? <==>
      fetchHistorical(date).Failure? || !fetchHistorical(date).value.success || fetchHistorical(date).value.rates.None?
    ensures r.Success? ==> r.value == QuoteAll(baseRate, fetchHistorical(date).value.rates.value, totalHours, discountFactor)
  {
    match fetchHistorical(date)
    case Failure(_) => Failure(RatesUnavailable)
    case Success(response) =>
      match ConvertAmountToCurrencies(baseRate, response)
      case Failure(e) => Failure(e)
      case Success(rates) =>
        assert rates == ConvertRates(baseRate, response.rates.value);
        Success(PriceOutputs(baseRate, rates, totalHours, discountFactor))
  }

  /** GET api/parking_payment/{id}/calculate. Unknown area 404; non-positive
      duration 400; a failed fetch or an unusable snapshot 503; otherwise one
      amount per currency of the snapshot. */
  function CalculatePayment(id: string, decode: string -> string, startTime: DateTime, endTime: DateTime,
                            date: DateTime, areas: Store<ParkingArea>,
                            fetchHistorical: DateTime -> Result<ExchangeRatesResponse, HostError>)
    : (r: ActionResult<map<string, real>>)
    ensures decode(id) !in areas ==> r == NotFound(Some(AreaNotFound))
    ensures decode(id) in areas && Ticks(endTime) <= Ticks(startTime) ==> r == BadRequest(Some(InvalidDuration))
    ensures r == Status(503, RatesUnavailable) <==>
      && decode(id) in areas && Ticks(startTime) < Ticks(endTime)
      && (fetchHistorical(date).Failure? || !fetchHistorical(date).value.success || fetchHistorical(date).value.rates.None?)
    ensures r.Ok? <==>
      && decode(id) in areas && Ticks(startTime) < Ticks(endTime)
      && fetchHistorical(date).Success? && fetchHistorical(date).value.success && fetchHistorical(date).value.rates.Some?
    ensures r.Ok? ==>
      var area := areas[decode(id)];
      r.value == QuoteAll(BaseRateUsd(area, date), fetchHistorical(date).value.rates.value,
                          TotalHours(startTime, endTime), DiscountFactor(area))
  {
    var decodedId := decode(id);
    match BaseRepo.Get(areas, decodedId)
    case None => NotFound(Some(AreaNotFound))
    case Some(area) =>
      var totalHours := TotalHours(startTime, endTime);
      if totalHours <= 0.0 then BadRequest(Some(InvalidDuration))
      else
        match FetchAndPrice(BaseRateUsd(area, date), date, totalHours, DiscountFactor(area), fetchHistorical)
        case Failure(_) => Status(503, RatesUnavailable)
        case Success(quote) => Ok(quote)
  }

  /** A missing area or a non-positive duration is answered without the rate
      service: the answer is the same whatever it would have returned. */
  lemma RatesNotFetchedOnRejectedInput(id: string, decode: string -> string, startTime: DateTime, endTime: DateTime,
                                       date: DateTime, areas: Store<ParkingArea>,
                                       f1: DateTime -> Result<ExchangeRatesResponse, HostError>,
                                       f2: DateTime -> Result<ExchangeRatesResponse, HostError>)
    requires decode(id) !in areas || !Precedes(startTime, endTime)
    ensures CalculatePayment(id, decode, startTime, endTime, date, areas, f1)
         == CalculatePayment(id, decode, startTime, endTime, date, areas, f2)
    ensures CalculatePayment(id, decode, startTime, endTime, date, areas, f1).Code() in {400, 404}
  {
    TicksOrder(startTime, endTime);
  }

  /** The parking date, not the start time, picks the rate: a successful
      quote for a Saturday or Sunday date is priced at the area's weekend
      rate, and for any other date at its weekday rate. */
  lemma WeekendSelectsWeekendRate(id: string, decode: string -> string, startTime: DateTime, endTime: DateTime,
                                  date: DateTime, areas: Store<ParkingArea>,
                                  fetchHistorical: DateTime -> Result<ExchangeRatesResponse, HostError>)
    requires CalculatePayment(id, decode, startTime, endTime, date, areas, fetchHistorical).Ok?
    ensures var area := areas[decode(id)];
      var quote := CalculatePayment(id, decode, startTime, endTime, date, areas, fetchHistorical).value;
      var hourly := if DayOfWeek(date) in {Saturday, Sunday} then area.weekendHourlyRateUsd else area.weekdaysHourlyRateUsd;
      quote == QuoteAll(hourly, fetchHistorical(date).value.rates.value, TotalHours(startTime, endTime), DiscountFactor(area))
  {
  }

  /** A 100 percent discount makes every quoted amount zero. */
  lemma FullDiscountIsFree(id: string, decode: string -> string, startTime: DateTime, endTime: DateTime,
                           date: DateTime, areas: Store<ParkingArea>,
                           fetchHistorical: DateTime -> Result<ExchangeRatesResponse, HostError>)
    requires decode(id) in areas && areas[decode(id)].discountPercentage == 100.0
    requires CalculatePayment(id, decode, startTime, endTime, date, areas, fetchHistorical).Ok?
    ensures var quote := CalculatePayment(id, decode, startTime, endTime, date, areas, fetchHistorical).value;
      forall c :: c in quote ==> quote[c] == 0.0
  {
    assert DiscountFactor(areas[decode(id)]) == 0.0;
  }

  lemma QuotedNonNegative(baseRate: real, rate: real, totalHours: real, discountFactor: real)
    requires baseRate >= 0.0 && rate >= 0.0 && totalHours >= 0.0 && discountFactor >= 0.0
    ensures Quoted(baseRate, rate, totalHours, discountFactor) >= 0.0
  {
    MulNonNegative(baseRate, rate);
    Round2NonNegative(baseRate * rate);
    CalculateNonNegative(baseRate, Round2(baseRate * rate), totalHours, discountFactor);
  }

  /** Validated rates, a discount of at most 100 percent and non-negative
      exchange rates quote no negative amount. */
  lemma QuoteNonNegative(id: string, decode: string -> string, startTime: DateTime, endTime: DateTime,
                         date: DateTime, areas: Store<ParkingArea>,
                         fetchHistorical: DateTime -> Result<ExchangeRatesResponse, HostError>)
    requires decode(id) in areas
    requires areas[decode(id)].weekdaysHourlyRateUsd >= 0.0 && areas[decode(id)].weekendHourlyRateUsd >= 0.0
    requires areas[decode(id)].discountPercentage <= 100.0
    requires CalculatePayment(id, decode, startTime, endTime, date, areas, fetchHistorical).Ok?
    requires forall c :: c in fetchHistorical(date).value.rates.value ==> fetchHistorical(date).value.rates.value[c] >= 0.0
    ensures var quote := CalculatePayment(id, decode, startTime, endTime, date, areas, fetchHistorical).value;
      forall c :: c in quote ==> quote[c] >= 0.0
  {
    var area := areas[decode(id)];
    var rates := fetchHistorical(date).value.rates.value;
    var quote := CalculatePayment(id, decode, startTime, endTime, date, areas, fetchHistorical).value;
    var hours := TotalHours(startTime, endTime);
    assert hours > 0.0;
    forall c | c in quote
      ensures quote[c] >= 0.0
    {
      QuotedNonNegative(BaseRateUsd(area, date), rates[c], hours, DiscountFactor(area));
    }
  }

  /** A two-hour weekday stay at 10 USD an hour with no discount, priced with
      rates {USD: 1, EUR: 0.9}, is quoted 200 USD and 180 EUR: the hourly
      rate is multiplied in twice. The request goes through the whole
      action: the area lookup, the duration check and the rate fetch. */
  lemma TwoHourWeekdayQuote(area: ParkingArea, startTime: DateTime, endTime: DateTime, date: DateTime)
    requires area.weekdaysHourlyRateUsd == 10.0 && area.discountPercentage == 0.0
    requires !IsWeekend(date)
    requires Ticks(endTime) - Ticks(startTime) == 2 * TicksPerHour
    ensures var snapshot := ExchangeRatesResponse(true, 0, "USD", "", Some(map["USD" := 1.0, "EUR" := 0.9]));
      CalculatePayment("area-1", s => s, startTime, endTime, date, map["area-1" := area], d => Success(snapshot))
        == Ok(map["USD" := 200.0, "EUR" := 180.0])
  {
    var snapshot := ExchangeRatesResponse(true, 0, "USD", "", Some(map["USD" := 1.0, "EUR" := 0.9]));
    var decode := (s: string) => s;
    var fetch := (d: DateTime) => Success(snapshot);
    var areas := map["area-1" := area];
    var rates := ConvertRates(10.0, map["USD" := 1.0, "EUR" := 0.9]);
    assert rates == map["USD" := 10.0, "EUR" := 9.0] by {
      Round2OfCents(10.0);
      Round2OfCents(9.0);
    }
    assert TotalHours(startTime, endTime) == 2.0;
    assert BaseRateUsd(area, date) == 10.0 && DiscountFactor(area) == 1.0;
    var quote := PriceOutputs(10.0, rates, 2.0, 1.0);
    assert quote["USD"] == 200.0 by {
      Round2OfCents(200.0);
    }
    assert quote["EUR"] == 180.0 by {
      Round2OfCents(180.0);
    }
    assert quote == map["USD" := 200.0, "EUR" := 180.0];
    var r := CalculatePayment("area-1", decode, startTime, endTime, date, areas, fetch);
    assert r.Ok? && r.value == QuoteAll(10.0, snapshot.rates.value, 2.0, 1.0);
  }
}
