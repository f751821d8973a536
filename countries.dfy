/**
 * The values both refresh handlers work on: an entry of the country directory
 * as parsed from its JSON body, a JavaScript number that may be NaN, and a row
 * of the `countries` table (server.js:27-38).
 */
module Countries {
  import opened Wrappers

  /** One element of an entry's `currencies` list. */
  datatype Currency = Currency(code: Option<string>)

  /** One entry of the country directory; `None` is a field that is absent or null. */
  datatype RawCountry = RawCountry(
    name: Option<string>,
    capital: Option<string>,
    region: Option<string>,
    population: Option<int>,
    flag: Option<string>,
    currencies: Option<seq<Currency>>)

  /** The outcome of one external fetch: whether the status was a success, the status and the parsed body. */
  datatype Fetch<T> = Fetch(ok: bool, status: int, body: T)

  /** A handler's answer when the outcome is either a body or a 404 "Country not found". */
  datatype Reply<T> = Ok(body: T) | NotFound

  /** A JavaScript number: a finite value, or NaN (what `undefined * m` yields). */
  datatype Number = Num(value: real) | NaN

  /** The non-key columns of the `countries` table. */
  datatype Columns = Columns(
    capital: Option<string>,
    region: Option<string>,
    population: int,
    flagUrl: Option<string>,
    currencyCode: Option<string>,
    exchangeRate: Option<real>,
    estimatedGdp: Number)

  /** A stored row: the `name` key and the other columns. */
  datatype Row = Row(name: string, cols: Columns)

  /** JavaScript truthiness of an optional string: present and not empty. */
  predicate Truthy(s: Option<string>) {
    s.Some? && s.value != ""
  }

  /** JavaScript truthiness of an optional number: present and not zero. */
  predicate TruthyInt(n: Option<int>) {
    n.Some? && n.value != 0
  }

  /** `s || null`: the string when it is truthy, otherwise null. */
  function OrNull(s: Option<string>): (r: Option<string>)
    ensures r.Some? <==> Truthy(s)
    ensures r.Some? ==> r == s
  {
    if Truthy(s) then s else None
  }

  /** `c.currencies[0].code`, or absent when there is no first currency. */
  function FirstCode(c: RawCountry): Option<string> {
    if c.currencies.Some? && |c.currencies.value| > 0 then c.currencies.value[0].code else None
  }

  /**
   * `Math.floor(Math.random() * (2000 - 1000 + 1)) + 1000`, with the random draw
   * `draw` taken as a parameter (server.js:69, routes/countries.js:9).
   */
  function RandomMultiplier(draw: real): (m: int)
    requires 0.0 <= draw < 1.0
    ensures 1000 <= m <= 2000
  {
    (draw * 1001.0).Floor + 1000
  }

  /** One `Math.random()` draw per entry of the directory. */
  predicate ValidDraws(draws: seq<real>) {
    forall i :: 0 <= i < |draws| ==> 0.0 <= draws[i] < 1.0
  }

  /** Every multiplier in [1000, 2000] is produced by some draw. */
  lemma MultiplierCoversRange(m: int)
    requires 1000 <= m <= 2000
    ensures var draw := (m - 1000) as real / 1001.0; 0.0 <= draw < 1.0 && RandomMultiplier(draw) == m
  {
    var draw := (m - 1000) as real / 1001.0;
    assert draw * 1001.0 == (m - 1000) as real;
  }

  /** For a positive rate, `population * m / rate` lies between the values for m = 1000 and m = 2000. */
  lemma ScaledBetween(population: int, m: int, rate: real)
    requires population >= 0 && 1000 <= m <= 2000 && rate > 0.0
    ensures (population * 1000) as real / rate <= (population * m) as real / rate <= (population * 2000) as real / rate
  {
    assert population * 1000 <= population * m <= population * 2000 by {
      assert population * (m - 1000) >= 0;
      assert population * (2000 - m) >= 0;
    }
    DivideMonotone((population * 1000) as real, (population * m) as real, rate);
    DivideMonotone((population * m) as real, (population * 2000) as real, rate);
  }

  lemma DivideMonotone(a: real, b: real, d: real)
    requires a <= b && d > 0.0
    ensures a / d <= b / d
  {
    assert b / d - a / d == (b - a) / d;
  }
}
