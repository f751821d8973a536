/**
 * The `server.js` variant of the service: the refresh handler with its
 * per-entry normaliser, upsert loop and top-5 summary, the listing query
 * builder, and the case-insensitive get and delete handlers.
 */
module Server {
  import opened Wrappers
  import opened Countries
  import opened Store
  import opened ListQuery

  /** An element of the working set `countries` built by the refresh (server.js:74-83). */
  datatype Country = Country(name: Option<string>, cols: Columns)

  /** Which external source made the refresh give up with 503. */
  datatype Source = CountriesApi | ExchangeRatesApi

  datatype RefreshResponse =
    | Refreshed(total: nat)                      // 200 with `total: countries.length`
    | Unavailable(source: Source, status: int)   // 503 "External data source unavailable"
    | InternalError                              // 500 from the outer catch

  /** What the summary image shows: the total and the five entries with the largest estimated GDP. */
  datatype Summary = Summary(total: nat, top5: seq<Country>)

  /** `ratesData.rates || {}` (server.js:64). */
  function RatesOrEmpty(rates: Option<map<string, real>>): map<string, real> {
    if rates.Some? then rates.value else map[]
  }

  /**
   * The `countriesData.map` callback (server.js:66-84) for one entry, with the
   * random multiplier `m` as a parameter. The rate is looked up with no
   * default; GDP is `c.population * m / rate` on the raw population, and 0
   * when the rate is null.
   */
  function Normalize(c: RawCountry, rates: map<string, real>, m: int): (n: Country)
    requires 1000 <= m <= 2000
    ensures n.name == c.name
    ensures n.cols.capital == OrNull(c.capital) && n.cols.region == OrNull(c.region) && n.cols.flagUrl == OrNull(c.flag)
    ensures n.cols.population == if TruthyInt(c.population) then c.population.value else 0
    ensures n.cols.currencyCode == if c.currencies.Some? && |c.currencies.value| > 0 then c.currencies.value[0].code else None
    ensures var code := n.cols.currencyCode;
      n.cols.exchangeRate.Some? <==> Truthy(code) && code.value in rates && rates[code.value] != 0.0
    ensures n.cols.exchangeRate.Some? ==> n.cols.exchangeRate.value == rates[n.cols.currencyCode.value]
    ensures n.cols.exchangeRate.None? ==> n.cols.estimatedGdp == Num(0.0)
    ensures n.cols.exchangeRate.Some? && c.population.None? ==> n.cols.estimatedGdp == NaN
    ensures n.cols.exchangeRate.Some? && c.population.Some? ==>
      n.cols.estimatedGdp.Num? && n.cols.estimatedGdp.value * n.cols.exchangeRate.value == (c.population.value * m) as real
    ensures n.cols.exchangeRate.Some? && n.cols.exchangeRate.value > 0.0 && c.population.Some? && c.population.value >= 0 ==>
      var p, rate := c.population.value, n.cols.exchangeRate.value;
      n.cols.estimatedGdp.Num? && (p * 1000) as real / rate <= n.cols.estimatedGdp.value <= (p * 2000) as real / rate
  {
    var code := FirstCode(c);
    var rate := if Truthy(code) && code.value in rates && rates[code.value] != 0.0 then Some(rates[code.value]) else None;
    var gdp :=
      if rate.None? then Num(0.0)
      else if c.population.None? then NaN
      else Num((c.population.value * m) as real / rate.value);
    assert rate.Some? && rate.value > 0.0 && c.population.Some? && c.population.value >= 0 ==>
      (c.population.value * 1000) as real / rate.value <= gdp.value <= (c.population.value * 2000) as real / rate.value
    by {
      if rate.Some? && rate.value > 0.0 && c.population.Some? && c.population.value >= 0 {
        ScaledBetween(c.population.value, m, rate.value);
      }
    }
    assert rate.Some? && c.population.Some? ==>
      ((c.population.value * m) as real / rate.value) * rate.value == (c.population.value * m) as real;
    Country(c.name, Columns(
      OrNull(c.capital), OrNull(c.region),
      if TruthyInt(c.population) then c.population.value else 0,
      OrNull(c.flag), code, rate, gdp))
  }

  /** `countriesData.map(...)`: one normalised entry per raw entry, in the same order, each with its own draw. */
  function NormalizeAll(cs: seq<RawCountry>, rates: map<string, real>, draws: seq<real>): (ns: seq<Country>)
    requires |draws| == |cs| && ValidDraws(draws)
    ensures |ns| == |cs|
    ensures forall i :: 0 <= i < |cs| ==> ns[i] == Normalize(cs[i], rates, RandomMultiplier(draws[i]))
  {
    if cs == [] then []
    else [Normalize(cs[0], rates, RandomMultiplier(draws[0]))] + NormalizeAll(cs[1..], rates, draws[1..])
  }

  // ---------------------------------------------------------------------------
  // Top five by estimated GDP (server.js:216-219)

  /** The sort key `c.estimated_gdp || 0`: NaN counts as 0. */
  function GdpKey(c: Country): real {
    match c.cols.estimatedGdp
    case Num(v) => v
    case NaN => 0.0
  }

  predicate Descending(s: seq<Country>) {
    forall i, j :: 0 <= i < j < |s| ==> GdpKey(s[j]) <= GdpKey(s[i])
  }

  /** Places `x` before the first element whose key is not larger than its own. */
  function InsertByGdp(x: Country, s: seq<Country>): seq<Country> {
    if s == [] then [x]
    else if GdpKey(s[0]) <= GdpKey(x) then [x] + s
    else [s[0]] + InsertByGdp(x, s[1..])
  }

  /** A sort by descending key, as `Array.prototype.sort` with `(a, b) => key(b) - key(a)`. */
  function SortByGdp(s: seq<Country>): seq<Country> {
    if s == [] then [] else InsertByGdp(s[0], SortByGdp(s[1..]))
  }

  lemma {:induction false} InsertByGdpPermutes(x: Country, s: seq<Country>)
    ensures multiset(InsertByGdp(x, s)) == multiset(s) + multiset{x}
  {
    if s != [] && GdpKey(s[0]) > GdpKey(x) {
      InsertByGdpPermutes(x, s[1..]);
      assert s == [s[0]] + s[1..];
    }
  }

  /** Every element of a descending sequence after the first has a key no larger than the first's. */
  lemma HeadIsLargest(s: seq<Country>, y: Country)
    requires Descending(s) && s != [] && y in s[1..]
    ensures GdpKey(y) <= GdpKey(s[0])
  {
    var j :| 0 <= j < |s[1..]| && s[1..][j] == y;
    assert s[j + 1] == y;
  }

  lemma {:induction false} InsertByGdpSorted(x: Country, s: seq<Country>)
    requires Descending(s)
    ensures Descending(InsertByGdp(x, s))
  {
    if s != [] && GdpKey(s[0]) > GdpKey(x) {
      var rest := InsertByGdp(x, s[1..]);
      InsertByGdpSorted(x, s[1..]);
      InsertByGdpPermutes(x, s[1..]);
      forall k | 0 <= k < |rest| ensures GdpKey(rest[k]) <= GdpKey(s[0]) {
        assert rest[k] in multiset(rest);
        if rest[k] != x {
          HeadIsLargest(s, rest[k]);
        }
      }
      var r := [s[0]] + rest;
      forall i, j | 0 <= i < j < |r| ensures GdpKey(r[j]) <= GdpKey(r[i]) {
        assert r[j] == rest[j - 1];
        if i > 0 {
          assert r[i] == rest[i - 1];
        }
      }
    }
  }

  /** The sort yields a descending permutation of its input. */
  lemma {:induction false} SortByGdpSorted(s: seq<Country>)
    ensures Descending(SortByGdp(s))
    ensures multiset(SortByGdp(s)) == multiset(s)
  {
    if s != [] {
      SortByGdpSorted(s[1..]);
      InsertByGdpSorted(s[0], SortByGdp(s[1..]));
      InsertByGdpPermutes(s[0], SortByGdp(s[1..]));
      assert s == [s[0]] + s[1..];
    }
  }

  /** A prefix of a descending permutation holds the largest keys of the original sequence. */
  lemma PrefixHoldsLargest(sorted: seq<Country>, countries: seq<Country>, n: nat)
    requires Descending(sorted) && multiset(sorted) == multiset(countries) && n <= |sorted|
    ensures forall i, j :: 0 <= i < n && 0 <= j < |countries| && countries[j] !in sorted[..n] ==>
      GdpKey(countries[j]) <= GdpKey(sorted[..n][i])
  {
    forall i, j | 0 <= i < n && 0 <= j < |countries| && countries[j] !in sorted[..n]
      ensures GdpKey(countries[j]) <= GdpKey(sorted[..n][i])
    {
      assert countries[j] in multiset(sorted);
      var k :| 0 <= k < |sorted| && sorted[k] == countries[j];
      assert forall m | 0 <= m < n :: sorted[m] in sorted[..n];
    }
  }

  /**
   * `[...countries].sort(...).slice(0, 5)`: at most five entries, in
   * descending key order, drawn from the input, and none of the entries left
   * out has a larger key than any entry kept. The input sequence is a value
   * and is not changed.
   */
  function Top5(countries: seq<Country>): (top: seq<Country>)
    ensures |top| == if |countries| < 5 then |countries| else 5
    ensures Descending(top)
    ensures multiset(top) <= multiset(countries)
    ensures forall i, j :: 0 <= i < |top| && 0 <= j < |countries| && countries[j] !in top ==>
      GdpKey(countries[j]) <= GdpKey(top[i])
  {
    var sorted := SortByGdp(countries);
    SortByGdpSorted(countries);
    assert |sorted| == |multiset(countries)| == |countries|;
    var n := if |countries| < 5 then |countries| else 5;
    PrefixHoldsLargest(sorted, countries, n);
    assert sorted == sorted[..n] + sorted[n..];
    sorted[..n]
  }

  // ---------------------------------------------------------------------------
  // The upsert loop (server.js:86-116)

  /**
   * Whether the upsert of the i-th record goes through: it fails when the
   * caller says so (`failing`), and always when the record has no name to key it.
   */
  predicate Succeeds(countries: seq<Country>, failing: set<nat>, i: nat)
    requires i < |countries|
  {
    i !in failing && countries[i].name.Some?
  }

  /** The value of `inserted` after the first k records. */
  function InsertedCount(countries: seq<Country>, failing: set<nat>, k: nat): nat
    requires k <= |countries|
  {
    if k == 0 then 0
    else InsertedCount(countries, failing, k - 1) + if Succeeds(countries, failing, k - 1) then 1 else 0
  }

  /** The table after the first k records. */
  function UpsertedUpTo(rows: seq<Row>, countries: seq<Country>, failing: set<nat>, k: nat): seq<Row>
    requires k <= |countries|
  {
    if k == 0 then rows
    else
      var prev := UpsertedUpTo(rows, countries, failing, k - 1);
      var c := countries[k - 1];
      if Succeeds(countries, failing, k - 1) then Upserted(prev, c.name.value, c.cols) else prev
  }

  /** What the successful upserts among the first k records wrote, name by name; a later record wins. */
  function Written(countries: seq<Country>, failing: set<nat>, k: nat): map<string, Columns>
    requires k <= |countries|
  {
    if k == 0 then map[]
    else
      var prev := Written(countries, failing, k - 1);
      var c := countries[k - 1];
      if Succeeds(countries, failing, k - 1) then prev[c.name.value := c.cols] else prev
  }

  /** `inserted` counts exactly the records whose upsert did not throw, so it never exceeds their number. */
  lemma {:induction false} InsertedCountsSuccesses(countries: seq<Country>, failing: set<nat>, k: nat)
    requires k <= |countries|
    ensures InsertedCount(countries, failing, k) == |set i: nat | i < k && Succeeds(countries, failing, i)|
    ensures InsertedCount(countries, failing, k) <= k
  {
    if k > 0 {
      InsertedCountsSuccesses(countries, failing, k - 1);
      var before := set i: nat | i < k - 1 && Succeeds(countries, failing, i);
      var after := set i: nat | i < k && Succeeds(countries, failing, i);
      if Succeeds(countries, failing, k - 1) {
        assert after == before + {k - 1};
      } else {
        assert after == before;
      }
    }
  }

  /**
   * After the first k records the table still has unique names, and seen as a
   * dictionary it is the old one overwritten by what the successful upserts
   * wrote: every other name keeps its columns.
   */
  lemma {:induction false} UpsertedUpToView(rows: seq<Row>, countries: seq<Country>, failing: set<nat>, k: nat)
    requires k <= |countries| && UniqueNames(rows)
    ensures UniqueNames(UpsertedUpTo(rows, countries, failing, k))
    ensures ByName(UpsertedUpTo(rows, countries, failing, k)) == ByName(rows) + Written(countries, failing, k)
  {
    if k > 0 {
      UpsertedUpToView(rows, countries, failing, k - 1);
      var prev := UpsertedUpTo(rows, countries, failing, k - 1);
      var c := countries[k - 1];
      if Succeeds(countries, failing, k - 1) {
        UpsertedView(prev, c.name.value, c.cols);
        UpdateAfterMerge(ByName(rows), Written(countries, failing, k - 1), c.name.value, c.cols);
      }
    }
  }

  lemma UpdateAfterMerge(m: map<string, Columns>, w: map<string, Columns>, name: string, cols: Columns)
    ensures (m + w)[name := cols] == m + w[name := cols]
  {
  }

  /**
   * A failing record does not stop later ones: every successful record's
   * columns are written under its name unless a later successful record
   * with the same name overwrote them.
   */
  lemma {:induction false} WrittenHoldsLastSuccess(countries: seq<Country>, failing: set<nat>, k: nat, i: nat)
    requires i < k <= |countries| && Succeeds(countries, failing, i)
    requires forall j :: i < j < k && Succeeds(countries, failing, j) ==> countries[j].name != countries[i].name
    ensures countries[i].name.value in Written(countries, failing, k)
    ensures Written(countries, failing, k)[countries[i].name.value] == countries[i].cols
  {
    if k - 1 > i {
      WrittenHoldsLastSuccess(countries, failing, k - 1, i);
    }
  }

  /** Only names of successful records are written. */
  lemma {:induction false} WrittenOnlySuccesses(countries: seq<Country>, failing: set<nat>, k: nat, name: string)
    requires k <= |countries| && name in Written(countries, failing, k)
    ensures exists i :: 0 <= i < k && Succeeds(countries, failing, i) && countries[i].name == Some(name)
  {
    var c := countries[k - 1];
    if !(Succeeds(countries, failing, k - 1) && c.name == Some(name)) {
      WrittenOnlySuccesses(countries, failing, k - 1, name);
    }
  }

  /** Running the same batch again leaves the table with the same contents and the same number of rows. */
  lemma RerunKeepsTable(rows: seq<Row>, countries: seq<Country>, failing: set<nat>)
    requires UniqueNames(rows)
    ensures var once := UpsertedUpTo(rows, countries, failing, |countries|);
      var twice := UpsertedUpTo(once, countries, failing, |countries|);
      ByName(twice) == ByName(once) && |twice| == |once|
  {
    var w := Written(countries, failing, |countries|);
    var once := UpsertedUpTo(rows, countries, failing, |countries|);
    var twice := UpsertedUpTo(once, countries, failing, |countries|);
    UpsertedUpToView(rows, countries, failing, |countries|);
    UpsertedUpToView(once, countries, failing, |countries|);
    assert ByName(rows) + w + w == ByName(rows) + w;
    ByNameOfUnique(once);
    ByNameOfUnique(twice);
  }

  /** The loop of server.js:86-116: upserts record by record, counting successes and skipping failures. */
  method UpsertCountries(db: CountriesTable, countries: seq<Country>, failing: set<nat>) returns (inserted: nat)
    requires db.Valid()
    modifies db
    ensures db.Valid()
    ensures db.rows == UpsertedUpTo(old(db.rows), countries, failing, |countries|)
    ensures inserted == InsertedCount(countries, failing, |countries|)
  {
    inserted := 0;
    for i := 0 to |countries|
      invariant db.Valid()
      invariant db.rows == UpsertedUpTo(old(db.rows), countries, failing, i)
      invariant inserted == InsertedCount(countries, failing, i)
    {
      var country := countries[i];
      if Succeeds(countries, failing, i) {
        db.InsertOrUpdate(country.name.value, country.cols);
        inserted := inserted + 1;
      }
    }
  }

  /**
   * `POST /countries/refresh` (server.js:42-135). The fetches are inputs; a
   * source that is not ok gives 503 before anything is written. Otherwise
   * every entry is normalised, upserted, and the summary image is drawn from
   * the whole working set; a failure while writing the image is caught by the
   * outer handler and gives 500 after the table has been written.
   */
  method RefreshCountries(
    db: CountriesTable,
    countriesRes: Fetch<seq<RawCountry>>,
    ratesRes: Fetch<Option<map<string, real>>>,
    draws: seq<real>,
    failing: set<nat>,
    renderFails: bool)
    returns (resp: RefreshResponse, image: Option<Summary>)
    requires db.Valid()
    requires |draws| == |countriesRes.body| && ValidDraws(draws)
    modifies db
    ensures db.Valid()
    ensures !countriesRes.ok ==>
      resp == Unavailable(CountriesApi, countriesRes.status) && db.rows == old(db.rows) && image == None
    ensures countriesRes.ok && !ratesRes.ok ==>
      resp == Unavailable(ExchangeRatesApi, ratesRes.status) && db.rows == old(db.rows) && image == None
    ensures countriesRes.ok && ratesRes.ok ==>
      var countries := NormalizeAll(countriesRes.body, RatesOrEmpty(ratesRes.body), draws);
      && db.rows == UpsertedUpTo(old(db.rows), countries, failing, |countries|)
      && resp == (if renderFails then InternalError else Refreshed(|countries|))
      && image == (if renderFails then None else Some(Summary(|countries|, Top5(countries))))
  {
    if !countriesRes.ok {
      return Unavailable(CountriesApi, countriesRes.status), None;
    }
    if !ratesRes.ok {
      return Unavailable(ExchangeRatesApi, ratesRes.status), None;
    }
    var rates := RatesOrEmpty(ratesRes.body);
    var countries := NormalizeAll(countriesRes.body, rates, draws);
    var inserted := UpsertCountries(db, countries, failing);
    if renderFails {
      return InternalError, None;
    }
    image := Some(Summary(|countries|, Top5(countries)));
    resp := Refreshed(|countries|);
  }

  // ---------------------------------------------------------------------------
  // Listing, get and delete (server.js:138-186)

  /** `GET /countries`: the SQL text and parameters (server.js:140-153). */
  method BuildListQuery(region: Option<string>, currency: Option<string>, sort: Option<string>)
    returns (query: string, params: seq<string>)
    ensures query == ListSql(region, currency, sort)
    ensures params == Params(Filters(region, currency))
    ensures Placeholders(query) == |params|
  {
    query := SelectAll;
    params := [];
    if Truthy(region) {
      query := query + " AND region = ?";
      params := params + [region.value];
    }
    ghost var filtered := query;
    if Truthy(currency) {
      query := query + " AND currency_code = ?";
      params := params + [currency.value];
    }
    ghost var withFilters := query;
    if sort == Some("gdp_desc") {
      query := query + " ORDER BY estimated_gdp DESC";
    } else if sort == Some("gdp_asc") {
      query := query + " ORDER BY estimated_gdp ASC";
    }
    assert query == withFilters + OrderSql(SortOrder(sort));
    assert withFilters == filtered + (if Truthy(currency) then " AND currency_code = ?" else "");
    assert filtered == SelectAll + (if Truthy(region) then " AND region = ?" else "");
    ListSqlSpelledOut(region, currency, sort);
    ParamsSpelledOut(region, currency);
    ListSqlPlaceholders(region, currency, sort);
  }

  /** `GET /countries/:name`: the first row whose lower-cased name matches, or 404 when none does. */
  method GetCountry(db: CountriesTable, name: string) returns (resp: Reply<Row>)
    ensures resp.NotFound? <==> forall r | r in db.rows :: Lower(r.name) != Lower(name)
    ensures resp.Ok? ==> resp.body in db.rows && Lower(resp.body.name) == Lower(name)
    ensures resp.Ok? ==> resp.body == Where(db.rows, LowerCase, name)[0]
  {
    var rows := Where(db.rows, LowerCase, name);
    if |rows| == 0 {
      return NotFound;
    }
    assert rows[0] in rows;
    resp := Ok(rows[0]);
  }

  /** `DELETE /countries/:name`: removes every row whose lower-cased name matches; 404 when none did. */
  method DeleteCountry(db: CountriesTable, name: string) returns (resp: Reply<string>)
    requires db.Valid()
    modifies db
    ensures db.Valid()
    ensures db.rows == WhereNot(old(db.rows), LowerCase, name)
    ensures resp.NotFound? <==> forall r | r in old(db.rows) :: Lower(r.name) != Lower(name)
  {
    ghost var before := db.rows;
    var affectedRows := db.DeleteWhere(LowerCase, name);
    if affectedRows == 0 {
      return NotFound;
    }
    assert Where(before, LowerCase, name)[0] in Where(before, LowerCase, name);
    resp := Ok(name + " deleted successfully");
  }

  /** Once a name is deleted, no spelling of it that lower-cases alike finds a row. */
  lemma DeletedInEveryCase(rows: seq<Row>, name: string, other: string)
    requires Lower(other) == Lower(name)
    ensures Where(WhereNot(rows, LowerCase, name), LowerCase, other) == []
  {
    DeleteThenSelectNothing(rows, LowerCase, name);
    LowerCaseVariantsSelectAlike(WhereNot(rows, LowerCase, name), name, other);
  }
}
