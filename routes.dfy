/**
 * The `routes/countries.js` variant of the service: a refresh that empties
 * the table and inserts the usable entries one by one, aborting on the first
 * failure; the listing query builder; and exact-name get and delete.
 */
module Routes {
  import opened Wrappers
  import opened Countries
  import opened Store
  import opened ListQuery

  datatype RefreshResponse =
    | Refreshed  // 200 "Countries refreshed successfully!"
    | Failed     // 500 "Failed to refresh countries"

  /**
   * `calculateEstimatedGDP(population, exchangeRate)` with the random draw as
   * a parameter (routes/countries.js:8-11): `population * k / exchangeRate`
   * for a multiplier k in [1000, 2000].
   */
  function CalculateEstimatedGdp(population: int, exchangeRate: real, draw: real): (gdp: real)
    requires exchangeRate != 0.0 && 0.0 <= draw < 1.0
    ensures exists k :: 1000 <= k <= 2000 && gdp * exchangeRate == (population * k) as real
    ensures exchangeRate > 0.0 && population >= 0 ==>
      (population * 1000) as real / exchangeRate <= gdp <= (population * 2000) as real / exchangeRate
  {
    var k := RandomMultiplier(draw);
    assert exchangeRate > 0.0 && population >= 0 ==>
      (population * 1000) as real / exchangeRate <= (population * k) as real / exchangeRate <= (population * 2000) as real / exchangeRate
    by {
      if exchangeRate > 0.0 && population >= 0 {
        ScaledBetween(population, k, exchangeRate);
      }
    }
    assert ((population * k) as real / exchangeRate) * exchangeRate == (population * k) as real;
    (population * k) as real / exchangeRate
  }

  /** An entry is skipped when it has no name, a falsy population or no first currency code (routes/countries.js:31). */
  predicate Skipped(c: RawCountry) {
    !Truthy(c.name) || !TruthyInt(c.population) || !Truthy(FirstCode(c))
  }

  /** `rates[currency] || 1` (routes/countries.js:34): never null and never zero. */
  function RateOrOne(rates: map<string, real>, currency: string): (rate: real)
    ensures rate != 0.0
    ensures currency in rates && rates[currency] != 0.0 ==> rate == rates[currency]
    ensures !(currency in rates && rates[currency] != 0.0) ==> rate == 1.0
  {
    if currency in rates && rates[currency] != 0.0 then rates[currency] else 1.0
  }

  /** The row inserted for an entry that is not skipped (routes/countries.js:33-50). */
  function RowFor(c: RawCountry, rates: map<string, real>, draw: real): (row: Row)
    requires !Skipped(c) && 0.0 <= draw < 1.0
    ensures row.name == c.name.value
    ensures row.cols.population == c.population.value
    ensures row.cols.currencyCode == FirstCode(c) && Truthy(row.cols.currencyCode)
    ensures row.cols.exchangeRate.Some? && row.cols.exchangeRate.value != 0.0
    ensures row.cols.exchangeRate.value == RateOrOne(rates, FirstCode(c).value)
    ensures row.cols.capital == OrNull(c.capital) && row.cols.region == OrNull(c.region) && row.cols.flagUrl == OrNull(c.flag)
    ensures row.cols.estimatedGdp == Num(CalculateEstimatedGdp(c.population.value, row.cols.exchangeRate.value, draw))
    ensures row.cols.estimatedGdp.Num?
    ensures exists k :: 1000 <= k <= 2000 && row.cols.estimatedGdp.value * row.cols.exchangeRate.value == (row.cols.population * k) as real
    ensures row.cols.exchangeRate.value > 0.0 && row.cols.population >= 0 ==>
      (row.cols.population * 1000) as real / row.cols.exchangeRate.value
        <= row.cols.estimatedGdp.value
        <= (row.cols.population * 2000) as real / row.cols.exchangeRate.value
  {
    var currency := FirstCode(c).value;
    var exchangeRate := RateOrOne(rates, currency);
    var gdp := CalculateEstimatedGdp(c.population.value, exchangeRate, draw);
    Row(c.name.value, Columns(
      OrNull(c.capital), OrNull(c.region), c.population.value, OrNull(c.flag),
      Some(currency), Some(exchangeRate), Num(gdp)))
  }

  /** The refresh loop's state after some entries: still going, or stopped by a throw at entry `at`. */
  datatype Progress =
    | Running(rows: seq<Row>)
    | Aborted(rows: seq<Row>, at: nat)

  /**
   * The table after the loop has looked at the first k entries, starting
   * from the emptied table. A kept entry throws when the rate payload is
   * missing (reading `rates[currency]`), when the caller says its insert
   * fails, or when its name is already stored (the UNIQUE key).
   */
  function RunInserts(cs: seq<RawCountry>, rates: Option<map<string, real>>, draws: seq<real>, failing: set<nat>, k: nat): Progress
    requires k <= |cs| == |draws| && ValidDraws(draws)
  {
    if k == 0 then Running([])
    else
      match RunInserts(cs, rates, draws, failing, k - 1)
      case Aborted(rows, at) => Aborted(rows, at)
      case Running(rows) =>
        var c := cs[k - 1];
        if Skipped(c) then Running(rows)
        else if rates.None? then Aborted(rows, k - 1)
        else
          var row := RowFor(c, rates.value, draws[k - 1]);
          if k - 1 in failing || row.name in Names(rows) then Aborted(rows, k - 1)
          else Running(rows + [row])
  }

  /** The rows for the entries among the first k that are not skipped, in input order. */
  function KeptRows(cs: seq<RawCountry>, rates: map<string, real>, draws: seq<real>, k: nat): seq<Row>
    requires k <= |cs| == |draws| && ValidDraws(draws)
  {
    if k == 0 then []
    else KeptRows(cs, rates, draws, k - 1) + if Skipped(cs[k - 1]) then [] else [RowFor(cs[k - 1], rates, draws[k - 1])]
  }

  /** The entries among the first k that the loop does not skip. */
  ghost function Unskipped(cs: seq<RawCountry>, k: nat): set<nat>
    requires k <= |cs|
  {
    set i: nat | i < k && !Skipped(cs[i])
  }

  /** There are exactly as many kept rows as entries that are not skipped. */
  lemma {:induction false} KeptRowsCount(cs: seq<RawCountry>, rates: map<string, real>, draws: seq<real>, k: nat)
    requires k <= |cs| == |draws| && ValidDraws(draws)
    ensures |KeptRows(cs, rates, draws, k)| == |Unskipped(cs, k)|
  {
    if k > 0 {
      KeptRowsCount(cs, rates, draws, k - 1);
      var before := Unskipped(cs, k - 1);
      if Skipped(cs[k - 1]) {
        assert Unskipped(cs, k) == before;
      } else {
        assert Unskipped(cs, k) == before + {k - 1};
        assert k - 1 !in before;
      }
    }
  }

  /**
   * The kept rows are one per entry that is not skipped, in input order: each
   * such entry's row is there, and there are exactly as many rows as such entries.
   */
  lemma {:induction false} KeptRowsAreTheUnskipped(cs: seq<RawCountry>, rates: map<string, real>, draws: seq<real>, k: nat)
    requires k <= |cs| == |draws| && ValidDraws(draws)
    ensures |KeptRows(cs, rates, draws, k)| == |Unskipped(cs, k)|
    ensures forall i :: 0 <= i < k && !Skipped(cs[i]) ==> RowFor(cs[i], rates, draws[i]) in KeptRows(cs, rates, draws, k)
  {
    KeptRowsCount(cs, rates, draws, k);
    forall i | 0 <= i < k && !Skipped(cs[i])
      ensures RowFor(cs[i], rates, draws[i]) in KeptRows(cs, rates, draws, k)
    {
      KeptRowIn(cs, rates, draws, k, i);
    }
  }

  /** The row of an entry that is not skipped stays among the kept rows of every longer prefix. */
  lemma {:induction false} KeptRowIn(cs: seq<RawCountry>, rates: map<string, real>, draws: seq<real>, k: nat, i: nat)
    requires k <= |cs| == |draws| && ValidDraws(draws)
    requires i < k && !Skipped(cs[i])
    ensures RowFor(cs[i], rates, draws[i]) in KeptRows(cs, rates, draws, k)
  {
    var row := RowFor(cs[i], rates, draws[i]);
    if i < k - 1 {
      KeptRowIn(cs, rates, draws, k - 1, i);
      var prefix := KeptRows(cs, rates, draws, k - 1);
      var last := if Skipped(cs[k - 1]) then [] else [RowFor(cs[k - 1], rates, draws[k - 1])];
      assert KeptRows(cs, rates, draws, k) == prefix + last;
      assert row in prefix + last;
    } else {
      assert KeptRows(cs, rates, draws, k) == KeptRows(cs, rates, draws, k - 1) + [row];
    }
  }

  /** The loop never stores two rows with the same name. */
  lemma {:induction false} RunInsertsUnique(cs: seq<RawCountry>, rates: Option<map<string, real>>, draws: seq<real>, failing: set<nat>, k: nat)
    requires k <= |cs| == |draws| && ValidDraws(draws)
    ensures UniqueNames(RunInserts(cs, rates, draws, failing, k).rows)
  {
    if k > 0 {
      RunInsertsUnique(cs, rates, draws, failing, k - 1);
      var prev := RunInserts(cs, rates, draws, failing, k - 1);
      if prev.Running? && !Skipped(cs[k - 1]) && rates.Some? {
        var row := RowFor(cs[k - 1], rates.value, draws[k - 1]);
        if !(k - 1 in failing || row.name in Names(prev.rows)) {
          forall i | 0 <= i < |prev.rows| ensures prev.rows[i].name != row.name {
            assert prev.rows[i] in prev.rows;
          }
        }
      }
    }
  }

  /** While the loop runs, it holds the kept entries so far, each with a rate payload and an insert that did not fail. */
  lemma {:induction false} RunInsertsRunning(cs: seq<RawCountry>, rates: Option<map<string, real>>, draws: seq<real>, failing: set<nat>, k: nat)
    requires k <= |cs| == |draws| && ValidDraws(draws)
    ensures var p := RunInserts(cs, rates, draws, failing, k);
      && (rates.None? ==> p.rows == [])
      && (p.Running? && rates.Some? ==> p.rows == KeptRows(cs, rates.value, draws, k))
      && (p.Running? ==> forall i :: 0 <= i < k && !Skipped(cs[i]) ==> rates.Some? && i !in failing)
  {
    if k > 0 {
      RunInsertsRunning(cs, rates, draws, failing, k - 1);
    }
  }

  /** A stop at entry `at` leaves the kept entries before it, and `at` is a kept entry whose insert threw. */
  lemma {:induction false} RunInsertsAborted(cs: seq<RawCountry>, rates: Option<map<string, real>>, draws: seq<real>, failing: set<nat>, k: nat)
    requires k <= |cs| == |draws| && ValidDraws(draws)
    ensures var p := RunInserts(cs, rates, draws, failing, k);
      && (p.Aborted? ==> p.at < k && !Skipped(cs[p.at]))
      && (p.Aborted? && rates.Some? ==>
            && p.rows == KeptRows(cs, rates.value, draws, p.at)
            && (p.at in failing || RowFor(cs[p.at], rates.value, draws[p.at]).name in Names(p.rows)))
  {
    if k > 0 {
      RunInsertsAborted(cs, rates, draws, failing, k - 1);
      RunInsertsRunning(cs, rates, draws, failing, k - 1);
    }
  }

  /**
   * What the loop leaves: while running, exactly the kept entries so far, in
   * order; once stopped at entry `at`, the kept entries before it, and `at` is
   * a kept entry whose insert threw. Without a rate payload nothing is
   * inserted. Names stay unique throughout.
   */
  lemma {:induction false} RunInsertsSpec(cs: seq<RawCountry>, rates: Option<map<string, real>>, draws: seq<real>, failing: set<nat>, k: nat)
    requires k <= |cs| == |draws| && ValidDraws(draws)
    ensures var p := RunInserts(cs, rates, draws, failing, k);
      && UniqueNames(p.rows)
      && (rates.None? ==> p.rows == [])
      && (p.Running? && rates.Some? ==> p.rows == KeptRows(cs, rates.value, draws, k))
      && (p.Running? ==> forall i :: 0 <= i < k && !Skipped(cs[i]) ==> rates.Some? && i !in failing)
      && (p.Aborted? ==> p.at < k && !Skipped(cs[p.at]))
      && (p.Aborted? && rates.Some? ==>
            && p.rows == KeptRows(cs, rates.value, draws, p.at)
            && (p.at in failing || RowFor(cs[p.at], rates.value, draws[p.at]).name in Names(p.rows)))
  {
    RunInsertsUnique(cs, rates, draws, failing, k);
    RunInsertsRunning(cs, rates, draws, failing, k);
    RunInsertsAborted(cs, rates, draws, failing, k);
  }

  /** Once the loop has thrown, later entries change nothing. */
  lemma {:induction false} AbortedStays(cs: seq<RawCountry>, rates: Option<map<string, real>>, draws: seq<real>, failing: set<nat>, k: nat, n: nat)
    requires k <= n <= |cs| == |draws| && ValidDraws(draws)
    requires RunInserts(cs, rates, draws, failing, k).Aborted?
    ensures RunInserts(cs, rates, draws, failing, n) == RunInserts(cs, rates, draws, failing, k)
  {
    if n > k {
      AbortedStays(cs, rates, draws, failing, k, n - 1);
    }
  }

  /** If every insert succeeds, the table ends up holding exactly the kept entries in input order. */
  lemma {:induction false} AllInsertsSucceed(cs: seq<RawCountry>, rates: map<string, real>, draws: seq<real>, failing: set<nat>, k: nat)
    requires k <= |cs| == |draws| && ValidDraws(draws)
    requires forall i :: 0 <= i < k && !Skipped(cs[i]) ==> i !in failing
    requires UniqueNames(KeptRows(cs, rates, draws, k))
    ensures RunInserts(cs, Some(rates), draws, failing, k) == Running(KeptRows(cs, rates, draws, k))
  {
    if k > 0 {
      var prev := KeptRows(cs, rates, draws, k - 1);
      assert UniqueNames(prev) by {
        assert forall i :: 0 <= i < |prev| ==> prev[i] == KeptRows(cs, rates, draws, k)[i];
      }
      AllInsertsSucceed(cs, rates, draws, failing, k - 1);
      if !Skipped(cs[k - 1]) {
        var row := RowFor(cs[k - 1], rates, draws[k - 1]);
        var all := KeptRows(cs, rates, draws, k);
        assert all == prev + [row];
        forall r | r in prev ensures r.name != row.name {
          var i :| 0 <= i < |prev| && prev[i] == r;
          assert all[i] == r && all[|prev|] == row;
        }
      }
    }
  }

  /**
   * `POST /countries/refresh` (routes/countries.js:14-59). A failed fetch
   * throws before the table is touched; otherwise the table is emptied and
   * the entries are inserted in order until the first throw, which gives 500
   * and leaves the rows inserted before it.
   */
  method RefreshCountries(
    db: CountriesTable,
    countriesRes: Fetch<seq<RawCountry>>,
    ratesRes: Fetch<Option<map<string, real>>>,
    draws: seq<real>,
    failing: set<nat>)
    returns (resp: RefreshResponse)
    requires db.Valid()
    requires |draws| == |countriesRes.body| && ValidDraws(draws)
    modifies db
    ensures db.Valid()
    ensures !(countriesRes.ok && ratesRes.ok) ==> resp == Failed && db.rows == old(db.rows)
    ensures countriesRes.ok && ratesRes.ok ==>
      var p := RunInserts(countriesRes.body, ratesRes.body, draws, failing, |countriesRes.body|);
      db.rows == p.rows && (resp == Refreshed <==> p.Running?)
  {
    if !countriesRes.ok || !ratesRes.ok {
      return Failed;
    }
    var countries := countriesRes.body;
    var rates := ratesRes.body;
    db.DeleteAll();
    for i := 0 to |countries|
      invariant db.Valid()
      invariant RunInserts(countries, rates, draws, failing, i) == Running(db.rows)
    {
      var c := countries[i];
      if Skipped(c) {
        continue;
      }
      if rates.None? {
        AbortedStays(countries, rates, draws, failing, i + 1, |countries|);
        return Failed;
      }
      var row := RowFor(c, rates.value, draws[i]);
      if i in failing {
        AbortedStays(countries, rates, draws, failing, i + 1, |countries|);
        return Failed;
      }
      var ok := db.Insert(row);
      if !ok {
        AbortedStays(countries, rates, draws, failing, i + 1, |countries|);
        return Failed;
      }
    }
    resp := Refreshed;
  }

  /** `GET /countries`: the SQL text and parameters (routes/countries.js:64-78), with two independent `if`s on `sort`. */
  method BuildListQuery(region: Option<string>, currency: Option<string>, sort: Option<string>)
    returns (query: string, params: seq<string>)
    ensures query == ListSql(region, currency, sort)
    ensures params == Params(Filters(region, currency))
    ensures Placeholders(query) == |params|
  {
    query := SelectAll;
    params := [];
    if Truthy(region) {
      query := query + " AND region = ?";
      params := params + [region.value];
    }
    ghost var filtered := query;
    if Truthy(currency) {
      query := query + " AND currency_code = ?";
      params := params + [currency.value];
    }
    ghost var withFilters := query;
    if sort == Some("gdp_desc") {
      query := query + " ORDER BY estimated_gdp DESC";
    }
    if sort == Some("gdp_asc") {
      query := query + " ORDER BY estimated_gdp ASC";
    }
    assert query == withFilters + OrderSql(SortOrder(sort));
    assert withFilters == filtered + (if Truthy(currency) then " AND currency_code = ?" else "");
    assert filtered == SelectAll + (if Truthy(region) then " AND region = ?" else "");
    ListSqlSpelledOut(region, currency, sort);
    ParamsSpelledOut(region, currency);
    ListSqlPlaceholders(region, currency, sort);
  }

  /** `GET /countries/:name` (routes/countries.js:88-99): the row with exactly that name, or 404. */
  method GetCountry(db: CountriesTable, name: string) returns (resp: Reply<Row>)
    ensures resp.NotFound? <==> name !in Names(db.rows)
    ensures resp.Ok? ==> resp.body in db.rows && resp.body.name == name
    ensures resp.Ok? ==> resp.body == Where(db.rows, Exact, name)[0]
  {
    var rows := Where(db.rows, Exact, name);
    if |rows| == 0 {
      return NotFound;
    }
    assert rows[0] in rows;
    resp := Ok(rows[0]);
  }

  /** `DELETE /countries/:name` (routes/countries.js:102-113): removes the row with exactly that name, or 404. */
  method DeleteCountry(db: CountriesTable, name: string) returns (resp: Reply<string>)
    requires db.Valid()
    modifies db
    ensures db.Valid()
    ensures db.rows == WhereNot(old(db.rows), Exact, name)
    ensures |db.rows| == |old(db.rows)| - (if name in Names(old(db.rows)) then 1 else 0)
    ensures resp.NotFound? <==> name !in Names(old(db.rows))
  {
    ghost var before := db.rows;
    ExactSelectsAtMostOne(before, name);
    var affectedRows := db.DeleteWhere(Exact, name);
    if affectedRows == 0 {
      return NotFound;
    }
    assert Where(before, Exact, name)[0] in Where(before, Exact, name);
    resp := Ok("Country deleted");
  }

  /**
   * The exact-name lookup does not fold case: a stored name with an upper-case
   * letter is not found under its lower-case spelling, which the `LOWER`
   * lookup of the other variant does find.
   */
  lemma ExactLookupIsCaseSensitive(rows: seq<Row>, stored: string, cols: Columns)
    requires Row(stored, cols) in rows
    requires exists i :: 0 <= i < |stored| && 'A' <= stored[i] <= 'Z'
    ensures Row(stored, cols) !in Where(rows, Exact, Lower(stored))
    ensures Row(stored, cols) in Where(rows, LowerCase, Lower(stored))
  {
    LowerIdempotent(stored);
    var i :| 0 <= i < |stored| && 'A' <= stored[i] <= 'Z';
    assert Lower(stored)[i] != stored[i];
  }
}
