/** CurrencyExchangerHost: the request URLs it builds and what it makes of the
    HTTP response. The transport is a parameter `send` from URL to response,
    and JSON deserialisation has already happened in the response's
    `content` (None when the body was `null` or did not parse). */
module ExchangerHost {
  import opened Wrappers
  import opened Calendar
  import opened RatesResponse

  datatype Host = Host(baseUrl: string, apiKey: string)

  /** The currencies every request asks for. */
  const WantedRates: string := "USD,EUR,PLN"

  type Parameter = (string, Option<string>)

  /** `&key=value` for each parameter in order, skipping null or empty values;
      nothing is escaped. */
  function QueryString(parameters: seq<Parameter>): string
  {
    if |parameters| == 0 then ""
    else QueryPart(parameters[0]) + QueryString(parameters[1..])
  }

  function QueryPart(parameter: Parameter): string {
    if IsNullOrEmpty(parameter.1) then "" else "&" + parameter.0 + "=" + parameter.1.value
  }

  /** CreateDesiredUri, with UriBuilder's normalisation left out. */
  function CreateDesiredUri(host: Host, endpoint: string, parameters: seq<Parameter>): (uri: string)
    ensures var prefix := host.baseUrl + endpoint + "?access_key=" + host.apiKey;
      |prefix| <= |uri| && uri[..|prefix|] == prefix && uri[|prefix|..] == QueryString(parameters)
  {
    host.baseUrl + endpoint + "?access_key=" + host.apiKey + QueryString(parameters)
  }

  /** The query of two parameter lists is the query of the first followed by
      the query of the second: parameters keep their argument order. */
  lemma {:induction false} QueryConcat(p1: seq<Parameter>, p2: seq<Parameter>)
    ensures QueryString(p1 + p2) == QueryString(p1) + QueryString(p2)
  {
    if |p1| > 0 {
      assert (p1 + p2)[0] == p1[0];
      assert (p1 + p2)[1..] == p1[1..] + p2;
      QueryConcat(p1[1..], p2);
      assert QueryString(p1 + p2) == QueryPart(p1[0]) + QueryString(p1[1..] + p2);
    } else {
      assert p1 + p2 == p2;
    }
  }

  /** A parameter whose value is null or empty contributes nothing. */
  lemma QueryDropsEmpty(before: seq<Parameter>, key: string, value: Option<string>, after: seq<Parameter>)
    requires IsNullOrEmpty(value)
    ensures QueryString(before + [(key, value)] + after) == QueryString(before + after)
  {
    QueryConcat(before + [(key, value)], after);
    QueryConcat(before, [(key, value)]);
    QueryConcat(before, after);
  }

  /** A parameter with a value contributes exactly `&key=value`. */
  lemma QueryKeepsValue(before: seq<Parameter>, key: string, value: string, after: seq<Parameter>)
    requires value != ""
    ensures QueryString(before + [(key, Some(value))] + after)
         == QueryString(before) + ("&" + key + "=" + value) + QueryString(after)
  {
    var single := [(key, Some(value))];
    var part := "&" + key + "=" + value;
    assert QueryString(single) == part by {
      assert single[1..] == [];
    }
    assert QueryString(before + single) == QueryString(before) + part by {
      QueryConcat(before, single);
    }
    assert QueryString(before + single + after) == QueryString(before + single) + QueryString(after) by {
      QueryConcat(before + single, after);
    }
  }

  // ---------------------------------------------------------------------
  // The yyyy-MM-dd endpoint of a historical request.

  function Pow10(k: nat): (p: nat)
    ensures p >= 1
  {
    if k == 0 then 1 else 10 * Pow10(k - 1)
  }

  predicate IsDigit(c: char) {
    '0' as int <= c as int <= '9' as int
  }

  /** `n` in decimal, left-padded with zeros to exactly `width` digits. */
  function PadDigits(n: nat, width: nat): (s: string)
    requires n < Pow10(width)
    ensures |s| == width
    ensures forall i :: 0 <= i < |s| ==> IsDigit(s[i])
  {
    if width == 0 then ""
    else PadDigits(n / 10, width - 1) + [('0' as int + n % 10) as char]
  }

  /** The number a string of decimal digits denotes. */
  function DigitsValue(s: string): nat
    requires forall i :: 0 <= i < |s| ==> IsDigit(s[i])
  {
    if |s| == 0 then 0
    else
      assert IsDigit(s[|s| - 1]);
      DigitsValue(s[..|s| - 1]) * 10 + (s[|s| - 1] as int - '0' as int)
  }

  lemma {:induction false} PadDigitsRoundTrip(n: nat, width: nat)
    requires n < Pow10(width)
    ensures DigitsValue(PadDigits(n, width)) == n
  {
    if width > 0 {
      var s := PadDigits(n, width);
      assert s[..|s| - 1] == PadDigits(n / 10, width - 1);
      PadDigitsRoundTrip(n / 10, width - 1);
    }
  }

  /** `date.ToString("yyyy-MM-dd")`. */
  function FormatDate(date: DateTime): (s: string)
    ensures |s| == 10 && s[4] == '-' && s[7] == '-'
    ensures forall i :: 0 <= i < 10 && i != 4 && i != 7 ==> IsDigit(s[i])
  {
    PadDigits(date.year, 4) + "-" + PadDigits(date.month, 2) + "-" + PadDigits(date.day, 2)
  }

  /** Reads a yyyy-MM-dd string back into (year, month, day). */
  function ParseDate(s: string): Option<(int, int, int)> {
    if |s| == 10 && s[4] == '-' && s[7] == '-'
       && (forall i :: 0 <= i < 10 && i != 4 && i != 7 ==> IsDigit(s[i]))
    then Some((DigitsValue(s[..4]), DigitsValue(s[5..7]), DigitsValue(s[8..])))
    else None
  }

  /** The endpoint is ten characters that name the date unambiguously. */
  lemma FormatDateRoundTrip(date: DateTime)
    ensures |FormatDate(date)| == 10
    ensures ParseDate(FormatDate(date)) == Some((date.year, date.month, date.day))
  {
    var y, m, d := PadDigits(date.year, 4), PadDigits(date.month, 2), PadDigits(date.day, 2);
    var s := FormatDate(date);
    assert s[..4] == y && s[5..7] == m && s[8..] == d;
    PadDigitsRoundTrip(date.year, 4);
    PadDigitsRoundTrip(date.month, 2);
    PadDigitsRoundTrip(date.day, 2);
  }

  function LatestUri(host: Host): string {
    CreateDesiredUri(host, "latest", [("symbols", Some(WantedRates))])
  }

  function HistoricalUri(host: Host, date: DateTime): string {
    CreateDesiredUri(host, FormatDate(date), [("symbols", Some(WantedRates)), ("format", Some("1"))])
  }

  lemma LatestUriText(host: Host)
    ensures LatestUri(host) == host.baseUrl + "latest" + "?access_key=" + host.apiKey + "&symbols=USD,EUR,PLN"
  {
    var ps: seq<Parameter> := [("symbols", Some(WantedRates))];
    assert QueryString(ps) == "&symbols=USD,EUR,PLN" by {
      assert ps[1..] == [];
      assert QueryString(ps) == "&symbols=" + WantedRates;
    }
  }

  lemma HistoricalUriText(host: Host, date: DateTime)
    ensures HistoricalUri(host, date)
         == host.baseUrl + FormatDate(date) + "?access_key=" + host.apiKey + "&symbols=USD,EUR,PLN&format=1"
  {
    var ps: seq<Parameter> := [("symbols", Some(WantedRates)), ("format", Some("1"))];
    assert QueryString(ps) == "&symbols=USD,EUR,PLN&format=1" by {
      assert ps[1..] == [("format", Some("1"))];
      assert ps[1..][1..] == [];
      assert QueryString(ps[1..]) == "&format=1";
      assert QueryString(ps) == "&symbols=" + WantedRates + "&format=1";
    }
  }

  // ---------------------------------------------------------------------
  // Responses.

  datatype HttpResponse = HttpResponse(statusCode: int, reasonPhrase: string, content: Option<ExchangeRatesResponse>)

  predicate IsSuccessStatusCode(statusCode: int) {
    200 <= statusCode <= 299
  }

  datatype HostError = FetchFailed(reasonPhrase: string) | DeserializeFailed

  /** The decisions shared by GetLatest and GetHistorical: a failing status
      throws with its reason phrase, an unreadable body throws the
      deserialisation error, and anything else is the parsed snapshot. */
  function ReadResponse(response: HttpResponse): (r: Result<ExchangeRatesResponse, HostError>)
    ensures !IsSuccessStatusCode(response.statusCode) ==> r == Failure(FetchFailed(response.reasonPhrase))
    ensures IsSuccessStatusCode(response.statusCode) && response.content.None? ==> r == Failure(DeserializeFailed)
    ensures r.Success? <==> IsSuccessStatusCode(response.statusCode) && response.content.Some?
    ensures r.Success? ==> r.value == response.content.value
  {
    if !IsSuccessStatusCode(response.statusCode) then Failure(FetchFailed(response.reasonPhrase))
    else match response.content
      case None => Failure(DeserializeFailed)
      case Some(converted) => Success(converted)
  }

  /** A failing status decides the outcome before the body is looked at. */
  lemma StatusDecidesFirst(r1: HttpResponse, r2: HttpResponse)
    requires !IsSuccessStatusCode(r1.statusCode) && r1.statusCode == r2.statusCode
    requires r1.reasonPhrase == r2.reasonPhrase
    ensures ReadResponse(r1) == ReadResponse(r2)
  {
  }

  /** GetLatest: one request for the latest rates of USD, EUR and PLN. */
  function GetLatest(host: Host, send: string -> HttpResponse): (r: Result<ExchangeRatesResponse, HostError>)
    ensures r.Success? <==> IsSuccessStatusCode(send(LatestUri(host)).statusCode) && send(LatestUri(host)).content.Some?
    ensures r.Success? ==> r.value == send(LatestUri(host)).content.value
    ensures !IsSuccessStatusCode(send(LatestUri(host)).statusCode) ==> r == Failure(FetchFailed(send(LatestUri(host)).reasonPhrase))
  {
    ReadResponse(send(LatestUri(host)))
  }

  /** GetHistorical: one request for the rates on the calendar day of `date`;
      the time of day does not reach the URL. */
  function GetHistorical(host: Host, date: DateTime, send: string -> HttpResponse): (r: Result<ExchangeRatesResponse, HostError>)
    ensures r.Success? <==> IsSuccessStatusCode(send(HistoricalUri(host, date)).statusCode) && send(HistoricalUri(host, date)).content.Some?
    ensures r.Success? ==> r.value == send(HistoricalUri(host, date)).content.value
    ensures !IsSuccessStatusCode(send(HistoricalUri(host, date)).statusCode)
      ==> r == Failure(FetchFailed(send(HistoricalUri(host, date)).reasonPhrase))
  {
    ReadResponse(send(HistoricalUri(host, date)))
  }

  /** Two moments of the same calendar day ask for the same URL. */
  lemma HistoricalIgnoresTimeOfDay(host: Host, a: DateTime, b: DateTime)
    requires a.year == b.year && a.month == b.month && a.day == b.day
    ensures HistoricalUri(host, a) == HistoricalUri(host, b)
  {
  }
}
