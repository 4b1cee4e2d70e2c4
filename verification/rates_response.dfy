/** The exchange-rate snapshot the rate service returns. */
module RatesResponse {
  import opened Wrappers

  /** `rates` is None when the body carried `"rates": null`. */
  datatype ExchangeRatesResponse = ExchangeRatesResponse(
    success: bool,
    timestamp: int,
    base: string,
    date: string,
    rates: Option<map<string, real>>)

  /** The response a default constructor builds. */
  function DefaultResponse(): (r: ExchangeRatesResponse)
    ensures !r.success && r.timestamp == 0
    ensures r.base == "" && r.date == ""
    ensures r.rates == Some(map[])
  {
    ExchangeRatesResponse(false, 0, "", "", Some(map[]))
  }

  /** GetRate: the rate of a listed code, 0 for any other code. It fails only
      when `rates` is null, as GetValueOrDefault throws on a null dictionary. */
  function GetRate(response: ExchangeRatesResponse, code: string): (r: Result<real, string>)
    ensures r.Failure? <==> response.rates.None?
    ensures response.rates.Some? && code in response.rates.value ==> r == Success(response.rates.value[code])
    ensures response.rates.Some? && code !in response.rates.value ==> r == Success(0.0)
  {
    match response.rates
    case None => Failure("Value cannot be null. (Parameter 'dictionary')")
    case Some(rates) => Success(if code in rates then rates[code] else 0.0)
  }

  /** A default response knows no currency: every rate reads as 0. */
  lemma DefaultRateIsZero(code: string)
    ensures GetRate(DefaultResponse(), code) == Success(0.0)
  {
  }
}
