/** ExchangeRatesCalculator: converting a USD amount with a snapshot and
    pricing a stay. */
module RatesCalculator {
  import opened Wrappers
  import opened Money
  import opened RatesResponse

  const InvalidResponse: string := "Invalid or unsuccessful exchange rates response."

  /** ConvertAmountToCurrencies: each listed currency's rate times `amount`,
      rounded to cents; refused unless the snapshot succeeded and has rates. */
  function ConvertAmountToCurrencies(amount: real, response: ExchangeRatesResponse): (r: Result<map<string, real>, string>)
    ensures r.Failure? <==> !response.success || response.rates.None?
    ensures r.Failure? ==> r.error == InvalidResponse
    ensures r.Success? ==> r.value.Keys == response.rates.value.Keys
    ensures r.Success? ==> forall c :: c in r.value ==> r.value[c] == Round2(amount * response.rates.value[c])
  {
    if !response.success || response.rates.None? then Failure(InvalidResponse)
    else Success(ConvertRates(amount, response.rates.value))
  }

  function ConvertRates(amount: real, rates: map<string, real>): (r: map<string, real>)
    ensures r.Keys == rates.Keys
    ensures forall c :: c in r ==> r[c] == Round2(amount * rates[c])
  {
    map c | c in rates :: Round2(amount * rates[c])
  }

  /** Calculate: the product of the four factors, rounded to cents. */
  function Calculate(baseRate: real, rate: real, totalHours: real, discountFactor: real): (total: real)
    ensures IsCents(total)
    ensures -0.005 <= total - baseRate * rate * totalHours * discountFactor <= 0.005
    ensures baseRate == 0.0 || rate == 0.0 || totalHours == 0.0 || discountFactor == 0.0 ==> total == 0.0
    ensures var exact := baseRate * rate * totalHours * discountFactor;
      (total - exact == 0.005 || exact - total == 0.005) ==> (total * 100.0).Floor % 2 == 0
  {
    var exact := baseRate * rate * totalHours * discountFactor;
    Round2Spec(exact);
    Round2(exact)
  }

  /** A charge exactly half a cent from two cents goes to the even one:
      12.5 cents is charged as 12 and 13.5 cents as 14. */
  lemma CalculateTiesToEven()
    ensures Calculate(0.125, 1.0, 1.0, 1.0) == 0.12
    ensures Calculate(0.135, 1.0, 1.0, 1.0) == 0.14
  {
  }

  /** A successful snapshot with no rates converts to no amounts, not a failure. */
  lemma EmptyRatesConvertToEmpty(amount: real, response: ExchangeRatesResponse)
    requires response.success && response.rates == Some(map[])
    ensures ConvertAmountToCurrencies(amount, response) == Success(map[])
  {
  }

  /** Every converted amount is whole cents and within half a cent of the
      exact product. */
  lemma ConvertedAmountsAreCents(amount: real, response: ExchangeRatesResponse, c: string)
    requires response.success && response.rates.Some? && c in response.rates.value
    ensures var v := ConvertAmountToCurrencies(amount, response).value[c];
      IsCents(v) && -0.005 <= v - amount * response.rates.value[c] <= 0.005
  {
    var x := amount * response.rates.value[c];
    assert ConvertAmountToCurrencies(amount, response).value[c] == Round2(x);
    Round2Spec(x);
  }

  /** Non-negative amounts and rates convert to non-negative amounts. */
  lemma ConvertedAmountsNonNegative(amount: real, response: ExchangeRatesResponse, c: string)
    requires response.success && response.rates.Some? && c in response.rates.value
    requires amount >= 0.0 && response.rates.value[c] >= 0.0
    ensures ConvertAmountToCurrencies(amount, response).value[c] >= 0.0
  {
    var x := amount * response.rates.value[c];
    assert ConvertAmountToCurrencies(amount, response).value[c] == Round2(x);
    MulNonNegative(amount, response.rates.value[c]);
    Round2NonNegative(x);
  }

  /** With non-negative factors the charge is non-negative. */
  lemma CalculateNonNegative(baseRate: real, rate: real, totalHours: real, discountFactor: real)
    requires baseRate >= 0.0 && rate >= 0.0 && totalHours >= 0.0 && discountFactor >= 0.0
    ensures Calculate(baseRate, rate, totalHours, discountFactor) >= 0.0
  {
    MulNonNegative(baseRate, rate);
    MulNonNegative(baseRate * rate, totalHours);
    MulNonNegative(baseRate * rate * totalHours, discountFactor);
    Round2NonNegative(baseRate * rate * totalHours * discountFactor);
  }

  /** A longer stay never costs less. */
  lemma CalculateMonotoneInHours(baseRate: real, rate: real, h1: real, h2: real, discountFactor: real)
    requires baseRate >= 0.0 && rate >= 0.0 && discountFactor >= 0.0 && h1 <= h2
    ensures Calculate(baseRate, rate, h1, discountFactor) <= Calculate(baseRate, rate, h2, discountFactor)
  {
    ProductMonotone(baseRate, rate, h1, h2, discountFactor);
    Round2Monotone(baseRate * rate * h1 * discountFactor, baseRate * rate * h2 * discountFactor);
  }

  lemma ProductMonotone(b: real, r: real, h1: real, h2: real, d: real)
    requires b >= 0.0 && r >= 0.0 && d >= 0.0 && h1 <= h2
    ensures b * r * h1 * d <= b * r * h2 * d
  {
    var k := b * r;
    MulNonNegative(b, r);
    MulMonotone(k, h1, h2);
    var p1, p2 := k * h1, k * h2;
    MulMonotone(d, p1, p2);
    assert b * r * h1 * d == d * p1;
    assert b * r * h2 * d == d * p2;
  }

  lemma MulNonNegative(a: real, b: real)
    requires a >= 0.0 && b >= 0.0
    ensures a * b >= 0.0
  {
  }

  lemma MulMonotone(k: real, a: real, b: real)
    requires k >= 0.0 && a <= b
    ensures k * a <= k * b
  {
    MulNonNegative(k, b - a);
    assert k * b - k * a == k * (b - a);
  }
}
