# ParkingFlow core in Dafny

ParkingFlow manages parking areas and the fees paid for parking in them. An
area has a weekday and a weekend hourly rate in USD and a discount percentage.
The server prices a stay from one day's exchange-rate snapshot (USD, EUR, PLN)
fetched from an external rate service. It stores areas and fees as documents,
and it aggregates the USD amounts of paid fees into monthly earnings for a
dashboard. The web client filters the list of areas by a search term.

This project models that core as pure functions over immutable data:

- `wrappers.dfy`: `Option` and `Result` (a C# null or thrown exception
  becomes `None` or `Failure`), plus `string.IsNullOrEmpty`.
- `calendar.dfy`: `System.DateTime` (date plus time of day, ordered by its
  tick count), the day of the week, the next day, and `AddMonths` on year and
  month.
- `money.dfy`: `Math.Round(x, 2)` with banker's rounding, on exact reals.
- `models.dfy`: the `ParkingArea` and `ParkingFee` documents.
- `rates_response.dfy`, `rates_calculator.dfy`, `exchanger_host.dfy`: the rate
  snapshot, currency conversion, and the rate-service client.
- `base_repo.dfy`: the generic document repository over a map from id to
  document, including the null-skipping merge of `UpdateAsync`.
- `area_controller.dfy`, `fee_controller.dfy`, `payment_controller.dfy`,
  `dashboard.dfy`: the HTTP actions. Each maps its inputs and the store to a
  status code, a body, and the store afterwards.
- `stats_repo.dfy`: monthly earnings, that is, the date window, grouping by
  month, summing, and ordering.
- `area_search.dfy`: the client's area search.

`Calculate` receives the already-converted amount `10 * rate` as its `rate`,
so the hourly rate is multiplied in twice. Two weekday hours at 10 USD an
hour, priced with rates {USD: 1, EUR: 0.9}, are quoted 200 USD and 180 EUR,
not 20 and 18 (`ParkingPaymentController.TwoHourWeekdayQuote`). `GetRate`
throws when `Rates` is null, because `GetValueOrDefault` does; the model
returns a failure in that case.

Other modelling choices:

- Decimal and double values are exact reals.
- A `DateTime` carries its time of day, because the earnings window compares
  full timestamps.
- URL decoding is a function parameter `decode`.
- The id the store would generate is a parameter `generatedId`.
- The rate service is a function from URL to HTTP response, or, in the payment
  action, from date to snapshot.
- The clock reading `DateTime.Now` is a parameter `now`.
- The controllers carry `[ApiController]`, so a request body is validated
  before the action runs. A non-nullable string property (`Name` and
  `Location` of an area, `ParkingAreaId` of a fee) and the non-nullable
  `PaymentResult` get an implicit `[Required]`. A body whose required string
  is null, empty or only white space, or whose payment is null, is answered
  400 with the offending fields, and the store is left alone
  (`ParkingAreaController.InvalidFields`, `ParkingFeeController.InvalidFields`).
- The client's area type declares `location` a string, and the server's
  actions never store a null one (`ParkingAreaController.ActionsKeepAreasComplete`).
  The search nevertheless reads `area.location.toLowerCase()` whenever the
  name does not match, so an area without a location, written to the
  database by other means, would make the whole `filter` throw. The model
  keeps the location optional on the client and states that failure
  (`AreaSearch.FilterAreas`, `AreaSearch.NullLocationFailsSearch`).

## Model

| member | source | states |
|---|---|---|
| `Money.Round2Spec` | CurrencyApi/ExchangeRatesCalculator.cs:5-15 | A rounded amount is a whole number of cents, within half a cent of the exact value, and on a tie the even cent. |
| `Money.Round2` | CurrencyApi/ExchangeRatesCalculator.cs:15 | `Math.Round(x, 2)` is a whole number of cents within half a cent of `x`. |
| `Money.Round2Unique` | CurrencyApi/ExchangeRatesCalculator.cs:15 | Those three properties determine the rounded amount uniquely, so they fully specify the rounding. |
| `Money.Round2Monotone` | CurrencyApi/ExchangeRatesCalculator.cs:15 | Rounding never reverses the order of two amounts. |
| `Money.Round2Idempotent` | CurrencyApi/ExchangeRatesCalculator.cs:24-26 | Rounding an already rounded amount changes nothing. |
| `RatesCalculator.ConvertAmountToCurrencies` | CurrencyApi/ExchangeRatesCalculator.cs:6-18 | Fails exactly when the snapshot is unsuccessful or has no rates. Otherwise it returns one rounded `amount * rate` per listed currency, with no currency added or dropped. |
| `RatesCalculator.EmptyRatesConvertToEmpty` | CurrencyApi/ExchangeRatesCalculator.cs:11-17 | A successful snapshot with an empty rate table converts to an empty map, not a failure. |
| `RatesCalculator.ConvertedAmountsAreCents` | CurrencyApi/ExchangeRatesCalculator.cs:14-15 | Every converted amount is whole cents and within half a cent of the exact product. |
| `RatesCalculator.ConvertedAmountsNonNegative` | CurrencyApi/ExchangeRatesCalculator.cs:14-15 | Non-negative amounts and rates convert to non-negative amounts. |
| `RatesCalculator.Calculate` | CurrencyApi/ExchangeRatesCalculator.cs:20-29 | The charge is whole cents, within half a cent of the product of the four factors, on a tie the even cent, and zero when any factor is zero. By `Money.Round2Unique`, this fixes the charge. |
| `RatesCalculator.CalculateTiesToEven` | CurrencyApi/ExchangeRatesCalculator.cs:24-26 | A product of 0.125 is charged 0.12 and one of 0.135 is charged 0.14: half cents go to the even cent. |
| `RatesCalculator.CalculateNonNegative` | CurrencyApi/ExchangeRatesCalculator.cs:24-26 | Non-negative factors give a non-negative charge. |
| `RatesCalculator.CalculateMonotoneInHours` | CurrencyApi/ExchangeRatesCalculator.cs:24-26 | With non-negative rates and discount, a longer stay never costs less. |
| `RatesResponse.DefaultResponse` | CurrencyApi/ExchangeRatesResponse.cs:6-21 | A default snapshot is unsuccessful, has timestamp 0, empty base and date, and an empty rate table. |
| `RatesResponse.GetRate` | CurrencyApi/ExchangeRatesResponse.cs:23-26 | A listed currency gives its rate and an unlisted one 0. It fails only when the rate table is null. |
| `RatesResponse.DefaultRateIsZero` | CurrencyApi/ExchangeRatesResponse.cs:21-26 | A freshly constructed snapshot reads 0 for every currency code. |
| `ExchangerHost.CreateDesiredUri` | CurrencyApi/CurrencyExchangerHost.cs:13-25 | The URL is the base URL, the endpoint and `?access_key=` plus the key, followed by the query of the parameters. |
| `ExchangerHost.QueryConcat` | CurrencyApi/CurrencyExchangerHost.cs:17-23 | Parameters are appended in argument order: the query of a concatenation is the concatenation of the queries. |
| `ExchangerHost.QueryDropsEmpty` | CurrencyApi/CurrencyExchangerHost.cs:19-20 | A parameter whose value is null or empty adds nothing to the URL. |
| `ExchangerHost.QueryKeepsValue` | CurrencyApi/CurrencyExchangerHost.cs:22 | A parameter with a value adds exactly `&key=value`, unescaped. |
| `ExchangerHost.PadDigitsRoundTrip` | CurrencyApi/CurrencyExchangerHost.cs:55 | A number written with zero padding to a fixed width reads back as the same number. |
| `ExchangerHost.FormatDateRoundTrip` | CurrencyApi/CurrencyExchangerHost.cs:55 | The `yyyy-MM-dd` endpoint is ten characters and parses back to the date's year, month and day. |
| `ExchangerHost.FormatDate` | CurrencyApi/CurrencyExchangerHost.cs:55 | `ToString("yyyy-MM-dd")` is four digits, a dash, two digits, a dash and two digits. |
| `ExchangerHost.HistoricalIgnoresTimeOfDay` | CurrencyApi/CurrencyExchangerHost.cs:53-57 | Two moments of the same calendar day ask the service for the same URL. |
| `ExchangerHost.LatestUriText` | CurrencyApi/CurrencyExchangerHost.cs:11-30 | The latest-rates URL is `<base>latest?access_key=<key>&symbols=USD,EUR,PLN`. |
| `ExchangerHost.HistoricalUriText` | CurrencyApi/CurrencyExchangerHost.cs:53-57 | The historical URL is `<base><yyyy-MM-dd>?access_key=<key>&symbols=USD,EUR,PLN&format=1`. |
| `ExchangerHost.ReadResponse` | CurrencyApi/CurrencyExchangerHost.cs:34-50 | A non-2xx status fails with its reason phrase. A body that does not deserialise fails with the deserialisation error. Anything else is the parsed snapshot. |
| `ExchangerHost.StatusDecidesFirst` | CurrencyApi/CurrencyExchangerHost.cs:34-35 | With a failing status the body is never looked at. |
| `ExchangerHost.GetLatest` | CurrencyApi/CurrencyExchangerHost.cs:27-51 | Succeeds exactly on a 2xx status with a parsed body, returning that body; a failing status fails with its reason phrase. |
| `ExchangerHost.GetHistorical` | CurrencyApi/CurrencyExchangerHost.cs:53-78 | The same for the dated request. |
| `Calendar.TicksOrder` | ParkingFlow.Server/Controllers/Parking/ParkingFeeController.cs:22-25 | Comparing DateTime tick counts is comparing (year, month, day, time of day) lexicographically, and equal ticks mean equal values. |
| `Calendar.DayOfWeek` | ParkingFlow.Server/Controllers/Parking/ParkingPaymentController.cs:41 | `DayOfWeek` is one of the seven values 0 (Sunday) to 6 (Saturday). |
| `Calendar.DayOfWeekAdvances` | ParkingFlow.Server/Controllers/Parking/ParkingPaymentController.cs:41 | Each calendar day is the weekday after the one before it, so `DayOfWeek` follows the calendar. |
| `Calendar.KnownWeekdays` | ParkingFlow.Server/Controllers/Parking/ParkingPaymentController.cs:41 | 0001-01-01 is a Monday and 2024-01-06 a Saturday. |
| `Calendar.AddMonths` | ParkingFlow.Server/Controllers/DashboardController.cs:38-39 | Shifts the month ordinal by the given count. It fails exactly when the count is outside ±120000 or the result leaves years 1 to 9999. |
| `Calendar.PreviousMonth` | ParkingFlow.Server/Controllers/DashboardController.cs:38-47 | A month earlier is December of the previous year in January and the previous month otherwise. |
| `BaseRepo.Get` | ParkingRepo/BaseRepo.cs:13-16 | Returns the stored document exactly when the id is present, and null otherwise. |
| `BaseRepo.GetAll` | ParkingRepo/BaseRepo.cs:24-29 | Returns exactly the stored documents the predicate accepts. |
| `BaseRepo.Add` | ParkingRepo/BaseRepo.cs:31-35 | Stores the document under its Id, or under a generated id when it has none; all other documents are unchanged. |
| `BaseRepo.Update` | ParkingRepo/BaseRepo.cs:37-57 | Fails exactly when no document has the entity's Id. Otherwise it merges into that document only, and the keys are unchanged. |
| `BaseRepo.Delete` | ParkingRepo/BaseRepo.cs:59-69 | Returns false with the store unchanged for an absent id. Otherwise it returns true and removes exactly that document. |
| `BaseRepo.CountWhere` | ParkingRepo/BaseRepo.cs:71-82 | The filtered count is the number of stored documents the predicate accepts. It never exceeds the total, and equals it exactly when every document is accepted. |
| `BaseRepo.Count` | ParkingRepo/BaseRepo.cs:71-75 | The count is the number of stored documents, and zero exactly for an empty store. |
| `BaseRepo.CountWhereSplits` | ParkingRepo/BaseRepo.cs:71-82 | The count for a predicate plus the count for its negation is the total count. |
| `BaseRepo.MergeArea` | ParkingRepo/BaseRepo.cs:44-54 | The Id is kept. Each nullable property is overwritten unless the incoming one is null. Value-typed properties are always overwritten. |
| `BaseRepo.MergeFee` | ParkingRepo/BaseRepo.cs:44-54 | The same merge for fees. |
| `BaseRepo.MergeAreaIdempotent` | ParkingRepo/BaseRepo.cs:48-54 | Merging the same body twice equals merging it once. A body without nulls replaces everything but the Id. |
| `BaseRepo.MergeFeeIdempotent` | ParkingRepo/BaseRepo.cs:48-54 | The same for fees. |
| `BaseRepo.SubsetCardinality` | ParkingRepo/BaseRepo.cs:77-82 | A subset is no larger than its superset, and equal in size only when it is the whole set. |
| `ParkingAreaController.RunChecks` | ParkingFlow.Server/Controllers/Parking/ParkingAreaController.cs:19-28 | Accepts exactly a non-empty name with both rates non-negative. It reports the missing name first, then negative rates. |
| `ParkingAreaController.RunChecksReadsNameAndRatesOnly` | ParkingFlow.Server/Controllers/Parking/ParkingAreaController.cs:19-28 | Discount, location, description and the active flag never affect validation. |
| `ParkingAreaController.InvalidFields` | ParkingDb/Models/ParkingArea.cs:7-8 | Model validation refuses `Name` exactly when it is null, empty or white space, and `Location` likewise; no other field is ever refused. |
| `ParkingAreaController.ValidBodyHasName` | ParkingFlow.Server/Controllers/Parking/ParkingAreaController.cs:19-28 | Once model validation passes, the action's own name check cannot fail; only the rates can still be refused. |
| `ParkingAreaController.GetParkingFees` | ParkingFlow.Server/Controllers/Parking/ParkingAreaController.cs:44-63 | An empty id gives 400. Otherwise the result is exactly the fees whose area id is the decoded id, unchanged. |
| `ParkingAreaController.Get` | ParkingFlow.Server/Controllers/Parking/ParkingAreaController.cs:65-86 | An empty id gives 400, an unknown id 404, and otherwise the stored area. |
| `ParkingAreaController.Create` | ParkingFlow.Server/Controllers/Parking/ParkingAreaController.cs:88-104 | A null or blank name or location gives the automatic 400 naming those fields, then a failing check gives 400; both store nothing. The action succeeds exactly when both pass, storing the area and returning it with its id. |
| `ParkingAreaController.Update` | ParkingFlow.Server/Controllers/Parking/ParkingAreaController.cs:106-131 | Checks run in order: invalid body 400, id mismatch 400, failing check 400, unknown id 404, each with the store unchanged. A 204 is returned exactly when all pass, and it merges the body into that one area. |
| `ParkingAreaController.ActionsKeepAreasKeyed` | ParkingFlow.Server/Controllers/Parking/ParkingAreaController.cs:88-154 | Create, Update and Delete keep every stored area under its own Id. |
| `ParkingAreaController.ActionsKeepAreasComplete` | ParkingFlow.Server/Controllers/Parking/ParkingAreaController.cs:88-131 | If every stored area has a name and a location, Create, Update and Delete keep it so. |
| `Actions.DeleteById` | ParkingFlow.Server/Controllers/Parking/ParkingAreaController.cs:133-154 | An unknown id gives 404 with the store unchanged. Otherwise 204, removing only that document. `ParkingFeeController.cs:109-130` is the same code over the fee store. |
| `ParkingFeeController.RunChecks` | ParkingFlow.Server/Controllers/Parking/ParkingFeeController.cs:17-29 | Accepts exactly a non-empty area id, a start strictly before the end, and a non-default parking date. Failures are reported in that order. |
| `ParkingFeeController.AcceptedFeeIsOrdered` | ParkingFlow.Server/Controllers/Parking/ParkingFeeController.cs:22-26 | An accepted fee starts strictly before it ends on the calendar, and its parking date is after 0001-01-01 00:00. |
| `ParkingFeeController.RunChecksIgnoresPayment` | ParkingFlow.Server/Controllers/Parking/ParkingFeeController.cs:17-29 | Neither the payment, the Id, nor which area is named affects validation. |
| `ParkingFeeController.InvalidFields` | ParkingDb/Models/ParkingFee.cs:5-9 | Model validation refuses `ParkingAreaId` exactly when it is null, empty or white space, and `PaymentResult` exactly when it is null; no other field is ever refused. |
| `ParkingFeeController.ValidBodyHasAreaId` | ParkingFlow.Server/Controllers/Parking/ParkingFeeController.cs:17-29 | Once model validation passes, the action's own area-id check cannot fail and the payment is present. |
| `ParkingFeeController.Get` | ParkingFlow.Server/Controllers/Parking/ParkingFeeController.cs:44-62 | An unknown id gives 404 and otherwise the stored fee; unlike the area action, an empty id is not rejected. |
| `ParkingFeeController.Create` | ParkingFlow.Server/Controllers/Parking/ParkingFeeController.cs:64-80 | A null or blank area id or a null payment gives the automatic 400 naming those fields, then a failing check gives 400; both store nothing. The action succeeds exactly when both pass, storing the fee with its id. |
| `ParkingFeeController.Update` | ParkingFlow.Server/Controllers/Parking/ParkingFeeController.cs:82-107 | Invalid body 400, id mismatch 400, failing check 400, unknown id 404, each with the store unchanged. A 204 is returned exactly when all pass, and it merges into that fee only. |
| `ParkingFeeController.UpdatedFeePassesChecks` | ParkingFlow.Server/Controllers/Parking/ParkingFeeController.cs:89-100 | After a 204, the stored fee itself passes both model validation and the action's checks. |
| `ParkingFeeController.ActionsKeepFeesKeyed` | ParkingFlow.Server/Controllers/Parking/ParkingFeeController.cs:64-130 | Create, Update and Delete keep every stored fee under its own Id. |
| `ParkingPaymentController.CalculatePayment` | ParkingFlow.Server/Controllers/Parking/ParkingPaymentController.cs:22-80 | Unknown area 404, then non-positive duration 400, then a failed fetch or unusable snapshot 503; 200 otherwise. On success the keys are the snapshot's currencies, each priced as `Calculate(base, Round2(base * rate), hours, discount)`. |
| `ParkingPaymentController.TotalHours` | ParkingFlow.Server/Controllers/Parking/ParkingPaymentController.cs:36-39 | The duration is the elapsed ticks in hours, positive exactly when the end is later. |
| `ParkingPaymentController.BaseRateUsd` | ParkingFlow.Server/Controllers/Parking/ParkingPaymentController.cs:41-42 | Saturdays and Sundays use the weekend rate and other days the weekday rate, never negative when both rates are not. |
| `ParkingPaymentController.DiscountFactor` | ParkingFlow.Server/Controllers/Parking/ParkingPaymentController.cs:43 | The factor lies in [0, 1] exactly when the percentage lies in [0, 100]. It is 0 exactly for 100 percent and 1 exactly for 0 percent. |
| `ParkingPaymentController.QuoteAll` | ParkingFlow.Server/Controllers/Parking/ParkingPaymentController.cs:51-72 | Converting and then pricing gives, per currency of the snapshot, the charge with the base rate applied twice. |
| `ParkingPaymentController.FetchAndPrice` | ParkingFlow.Server/Controllers/Parking/ParkingPaymentController.cs:47-58 | A failed fetch, an unsuccessful snapshot and a null rate table are all one failure; anything else is priced. |
| `ParkingPaymentController.RatesNotFetchedOnRejectedInput` | ParkingFlow.Server/Controllers/Parking/ParkingPaymentController.cs:31-39 | For a missing area or an end not after the start, the answer (404 or 400) is the same whatever the rate service would return. |
| `ParkingPaymentController.WeekendSelectsWeekendRate` | ParkingFlow.Server/Controllers/Parking/ParkingPaymentController.cs:41-72 | A successful quote is priced at the weekend hourly rate when the parking date is a Saturday or Sunday, and at the weekday rate otherwise, whatever the start time. |
| `ParkingPaymentController.FullDiscountIsFree` | ParkingFlow.Server/Controllers/Parking/ParkingPaymentController.cs:43-72 | A 100 percent discount makes every quoted amount zero. |
| `ParkingPaymentController.QuoteNonNegative` | ParkingFlow.Server/Controllers/Parking/ParkingPaymentController.cs:41-72 | Non-negative rates, a discount of at most 100 percent and non-negative exchange rates give no negative amount. |
| `ParkingPaymentController.TwoHourWeekdayQuote` | ParkingFlow.Server/Controllers/Parking/ParkingPaymentController.cs:22-80 | The whole action, asked for two weekday hours in a stored area at 10 USD an hour with rates {USD: 1, EUR: 0.9}, answers 200 with 200 USD and 180 EUR. |
| `StatsRepo.QueryWindow` | ParkingRepo/StatsRepo.cs:20-23 | The bounds exist exactly when both months are valid and the to-month is not December 9999. They run from midnight of the first day to midnight of the last day. |
| `StatsRepo.LastDayPrecedesNextMonth` | ParkingRepo/StatsRepo.cs:23 | The upper bound is the day before the first of the following month. |
| `StatsRepo.WindowByMonth` | ParkingRepo/StatsRepo.cs:22-29 | A date is included exactly when its month is within the range, except on the last day of the to-month after midnight. |
| `StatsRepo.MidnightWindowIsMonthRange` | ParkingRepo/StatsRepo.cs:22-29 | For dates at midnight, inclusion is exactly the month lying between the two months. |
| `StatsRepo.Included` | ParkingRepo/StatsRepo.cs:27-29 | Keeps exactly the fees in the window, drawn from the listed fees. |
| `StatsRepo.IncludedKeepsEveryCopy` | ParkingRepo/StatsRepo.cs:27-29 | The kept fees are a subsequence of the list, so their order is kept. Each fee in the window occurs as often as in the list, and no other fee occurs. |
| `StatsRepo.Insert` | ParkingRepo/StatsRepo.cs:32-40 | Adding a fee keeps the series strictly descending. It adds the month to the key set and the amount to that month's total only. |
| `StatsRepo.Aggregate` | ParkingRepo/StatsRepo.cs:31-40 | The grouped series is strictly descending. Its months are exactly the fees' months, each month's total is the sum of that month's amounts, and the totals add up to the sum of all amounts. |
| `StatsRepo.EarningsQuery` | ParkingRepo/StatsRepo.cs:20-48 | Invalid bounds fail before the query. A kept fee without payment fails while summing. Otherwise the result is the aggregate of the kept fees. |
| `StatsRepo.RowIsLookup` | ParkingRepo/StatsRepo.cs:32-38 | In a descending series each row's total is the whole total for its month: there is one row per month. |
| `StatsRepo.SeriesRows` | ParkingRepo/StatsRepo.cs:31-40 | No two rows share a month. Every row's total is its month's sum. Every row has a fee and every kept fee has a row, so the series is sparse. |
| `StatsRepo.SameMonthInBothWindows` | ParkingRepo/StatsRepo.cs:29-37 | Two windows that agree on the dates of a month give that month the same sum and the same presence. |
| `StatsRepo.GetTotalEarningsAsync` | ParkingRepo/StatsRepo.cs:50-73 | Invalid bounds throw to the caller. The result is null when no fee falls in the month or a kept fee lacks payment. Otherwise it is the first of the month with the sum of every kept fee. |
| `StatsRepo.OneMonthSeries` | ParkingRepo/StatsRepo.cs:53-67 | The one-month query has a row exactly when some fee is kept; that row is for the month and holds the total of all kept fees. |
| `StatsRepo.GetTotalEarningsListAsync` | ParkingRepo/StatsRepo.cs:75-98 | Returns `[]` on invalid bounds, a missing payment or no rows. Otherwise one (first of month, total) per row, in the same order. |
| `StatsRepo.ListDescending` | ParkingRepo/StatsRepo.cs:39-40 | The list returned by GetTotalEarningsListAsync, which keeps the query order, runs strictly backwards in time. |
| `StatsRepo.TwoMonthSeries` | ParkingRepo/StatsRepo.cs:31-40 | 10 and 20 USD in January and 5 USD in February give the series (February, 5), (January, 30). |
| `DashboardController.GetDashboardData` | ParkingFlow.Server/Controllers/DashboardController.cs:21-81 | Fails with 500 exactly when `now` is before July of year 1 or in December 9999. Otherwise it reports the area count, the fee count, the active count (at most the area count), last and current month's figures, and a history copied row by row from the seven-month series. |
| `DashboardController.Figure` | ParkingFlow.Server/Controllers/DashboardController.cs:48-53 | A null monthly total reads as 0. |
| `DashboardController.CurrentMonthMatchesHistory` | ParkingFlow.Server/Controllers/DashboardController.cs:50-77 | The current-month figure equals the history row for `now`'s month when there is one. It is 0 when the history is non-empty and has no such row. |
| `DashboardController.LastMonthMatchesHistory` | ParkingFlow.Server/Controllers/DashboardController.cs:38-77 | With every parking date at midnight, the last-month figure equals the history row for the previous month. |
| `DashboardController.HistoryWithinSevenMonths` | ParkingFlow.Server/Controllers/DashboardController.cs:39-60 | Every history row lies in the seven months ending with `now`'s month. |
| `AreaSearch.AreaIsActive` | parkingflow.client/src/pages/parking_area/ParkingAreas.tsx:25-27 | The label is "Active" exactly for an active area and "Not active" exactly for an inactive one. |
| `AreaSearch.IncludesIsOccurrence` | parkingflow.client/src/pages/parking_area/ParkingAreas.tsx:30-33 | The substring test succeeds exactly when the term occurs at some position. |
| `AreaSearch.TestArea` | parkingflow.client/src/pages/parking_area/ParkingAreas.tsx:29-33 | The callback throws exactly when the name lacks the term and the location is null. Otherwise it accepts exactly the areas whose name, location or status label contains the term. |
| `AreaSearch.Matches` | parkingflow.client/src/pages/parking_area/ParkingAreas.tsx:30-33 | An area matches exactly when the lowercased term occurs at some position of its lowercased name, of its location when it has one, or of its status label. |
| `AreaSearch.FilterAreas` | parkingflow.client/src/pages/parking_area/ParkingAreas.tsx:29-34 | Fails exactly when the callback throws for some area. Otherwise it is a subsequence of the list in which each matching area occurs as often as in the list and no other area occurs. Matching compares lowercased name, location and status label with the lowercased term; the description is ignored. |
| `AreaSearch.EmptyTermKeepsAll` | parkingflow.client/src/pages/parking_area/ParkingAreas.tsx:29-34 | An empty term keeps every area and never fails, since every name contains it. |
| `AreaSearch.ActiveTermKeepsAll` | parkingflow.client/src/pages/parking_area/ParkingAreas.tsx:25-33 | "active" in any letter case keeps every area whenever the search does not fail, and it cannot fail when every area has a location. |
| `AreaSearch.NotTermKeepsInactive` | parkingflow.client/src/pages/parking_area/ParkingAreas.tsx:25-33 | "not" in any letter case keeps every inactive area whenever the search does not fail. |
| `AreaSearch.NullLocationFailsSearch` | parkingflow.client/src/pages/parking_area/ParkingAreas.tsx:30-31 | One area with a null location whose name lacks the term makes the whole search fail, wherever it stands in the list. |

## Left out

- Network I/O and JSON. `HttpClient`, reading the body, and
  `JsonSerializer` are replaced by an HTTP response whose body is already
  parsed or absent.
- UriBuilder's normalisation and URL escaping. `WebUtility.UrlDecode` is an
  abstract `decode` parameter.
- The date text in the historical fetch error. `ToShortDateString` depends
  on the culture, so only the reason phrase of that message is modelled.
- `ExchangerHost.FormatDate` assumes a current culture with the Gregorian
  calendar. `ToString("yyyy-MM-dd")` formats in the current culture's
  calendar, so under th-TH, for example, the endpoint would carry a
  Buddhist-era year.
- Floating point and decimal limits. Values are exact reals, so decimal
  overflow and the precision of the double `DiscountPercentage` and
  `TotalHours` are not modelled. The 500 answer of the payment action's
  pricing loop can only come from such an overflow, so it does not appear.
- The catch-all 500 answers of the area and fee actions come from storage
  failures, which are not modelled.
- The two `GetAll` actions. Each returns the repository's whole list, so its
  model would be `GetAll` with a predicate that accepts every document.
- The RavenDB session. Unit of work, `SaveChangesAsync`, generated ids
  (supplied as `generatedId`), case-insensitive ids, and list order of query
  results are not modelled.
- `ParkingAreaController.GetParkingFees` compares a fee's area id with the
  decoded id exactly. The query runs in RavenDB, whose string equality
  ignores case, so a fee whose area id differs only in letter case would
  also be returned there.
- A null area name on the client. `AreaSearch.ClientArea` keeps the name a
  plain string: the server's model validation refuses a null or blank name
  for every area its actions store, and the search would throw on a null
  name whatever the term, before reading any other field.
- The blocking `.Result` in the earnings query, and the null its catch
  returns.
- The `PaymentResult` class is not part of this model. Its shape (USD, EUR
  and PLN amounts) follows the client's fee model, and only the USD amount
  is read.
- Model validation of the `PaymentResult` object's own properties. Since
  the class is not part of this model, only its presence is required; any
  non-nullable string inside it would also be required.
- Model validation depends on the server project compiling with nullable
  reference types enabled, which the `string?` and `null!` annotations of
  the documents indicate. Rendering of the validation problem body is not
  modelled, only the refused field names.
- `DashboardController.GetDashboardData`: the 500 body's exception message
  is not modelled; the reason is the fixed prefix.
- `DashboardController.LastMonthMatchesHistory` holds only when every parking
  date is at midnight. The one-month query for last month ends at midnight
  of that month's last day, while the history window runs on through the
  current month. So a fee later on that last day is in the history row but
  not in the last-month figure.
- `DateTime.Now` and time zones. The clock is the parameter `now`, and
  `DateTime.Kind` does not take part in comparisons.
- Lowercasing beyond ASCII. `AreaSearch.Lower` folds only A to Z, whereas
  JavaScript's `toLowerCase` folds all of Unicode.
- Authentication, the JWT service, and the rest of the client UI.
