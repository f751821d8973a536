/**
 * The SQL text and bound parameters of the country listing
 * (server.js:140-153, routes/countries.js:64-78): optional equality filters on
 * `region` and `currency_code`, then an optional ORDER BY on `estimated_gdp`.
 */
module ListQuery {
  import opened Wrappers
  import opened Countries

  const SelectAll := "SELECT * FROM countries WHERE 1=1"

  /** One `AND <column> = ?` condition and the value bound to its placeholder. */
  datatype Filter = Filter(column: string, value: string)

  /** The filters a listing applies: region first, then currency, each only when its query value is truthy. */
  function Filters(region: Option<string>, currency: Option<string>): (fs: seq<Filter>)
    ensures |fs| == (if Truthy(region) then 1 else 0) + (if Truthy(currency) then 1 else 0)
    ensures Truthy(region) ==> fs[0] == Filter("region", region.value)
    ensures Truthy(currency) ==> fs[|fs| - 1] == Filter("currency_code", currency.value)
  {
    (if Truthy(region) then [Filter("region", region.value)] else [])
    + (if Truthy(currency) then [Filter("currency_code", currency.value)] else [])
  }

  function FilterSql(fs: seq<Filter>): string {
    if fs == [] then "" else " AND " + fs[0].column + " = ?" + FilterSql(fs[1..])
  }

  /** The values bound to the filters' placeholders, in order. */
  function Params(fs: seq<Filter>): (ps: seq<string>)
    ensures |ps| == |fs|
    ensures forall i :: 0 <= i < |fs| ==> ps[i] == fs[i].value
  {
    if fs == [] then [] else [fs[0].value] + Params(fs[1..])
  }

  datatype Order = Unsorted | GdpDesc | GdpAsc

  /** The `sort` query value selects an ordering only when it is exactly `gdp_desc` or `gdp_asc`. */
  function SortOrder(sort: Option<string>): (o: Order)
    ensures o == GdpDesc <==> sort == Some("gdp_desc")
    ensures o == GdpAsc <==> sort == Some("gdp_asc")
  {
    if sort == Some("gdp_desc") then GdpDesc
    else if sort == Some("gdp_asc") then GdpAsc
    else Unsorted
  }

  function OrderSql(o: Order): string {
    match o
    case Unsorted => ""
    case GdpDesc => " ORDER BY estimated_gdp DESC"
    case GdpAsc => " ORDER BY estimated_gdp ASC"
  }

  /** The SQL text the listing sends. */
  function ListSql(region: Option<string>, currency: Option<string>, sort: Option<string>): string {
    SelectAll + FilterSql(Filters(region, currency)) + OrderSql(SortOrder(sort))
  }

  /** The number of `?` placeholders in a statement. */
  function Placeholders(s: string): nat {
    if s == [] then 0 else (if s[0] == '?' then 1 else 0) + Placeholders(s[1..])
  }

  lemma {:induction false} PlaceholdersAppend(a: string, b: string)
    ensures Placeholders(a + b) == Placeholders(a) + Placeholders(b)
  {
    if a == [] {
      assert a + b == b;
    } else {
      PlaceholdersAppend(a[1..], b);
      assert (a + b)[1..] == a[1..] + b;
    }
  }

  lemma {:induction false} NoQuestionMark(s: string)
    requires '?' !in s
    ensures Placeholders(s) == 0
  {
    if s != [] {
      NoQuestionMark(s[1..]);
    }
  }

  /** Each filter contributes one placeholder, provided no column name contains `?`. */
  lemma {:induction false} FilterSqlPlaceholders(fs: seq<Filter>)
    requires forall f | f in fs :: '?' !in f.column
    ensures Placeholders(FilterSql(fs)) == |fs|
  {
    if fs != [] {
      FilterSqlPlaceholders(fs[1..]);
      PlaceholdersAppend(" AND " + fs[0].column + " = ?", FilterSql(fs[1..]));
      PlaceholdersAppend(" AND " + fs[0].column, " = ?");
      PlaceholdersAppend(" AND ", fs[0].column);
      NoQuestionMark(" AND ");
      NoQuestionMark(fs[0].column);
      assert Placeholders(" = ?") == 1;
    }
  }

  /** Text around the filters that holds no `?` adds no placeholder. */
  lemma PlaceholdersBetween(before: string, middle: string, after: string)
    requires '?' !in before && '?' !in after
    ensures Placeholders(before + middle + after) == Placeholders(middle)
  {
    PlaceholdersAppend(before + middle, after);
    PlaceholdersAppend(before, middle);
    NoQuestionMark(before);
    NoQuestionMark(after);
  }

  lemma {:induction false} FilterSqlAppend(a: seq<Filter>, b: seq<Filter>)
    ensures FilterSql(a + b) == FilterSql(a) + FilterSql(b)
  {
    if a == [] {
      assert a + b == b;
    } else {
      FilterSqlAppend(a[1..], b);
      assert (a + b)[1..] == a[1..] + b;
    }
  }

  lemma FilterSqlOne(f: Filter)
    ensures FilterSql([f]) == " AND " + f.column + " = ?"
  {
    assert [f][1..] == [];
  }

  lemma FilterSqlRegion(region: string)
    ensures FilterSql([Filter("region", region)]) == " AND region = ?"
  {
    FilterSqlOne(Filter("region", region));
  }

  lemma FilterSqlCurrency(currency: string)
    ensures FilterSql([Filter("currency_code", currency)]) == " AND currency_code = ?"
  {
    FilterSqlOne(Filter("currency_code", currency));
  }

  /** The filter clauses written out: the region clause, then the currency clause, each when truthy. */
  lemma FilterSqlSpelledOut(region: Option<string>, currency: Option<string>)
    ensures FilterSql(Filters(region, currency))
      == (if Truthy(region) then " AND region = ?" else "")
      + (if Truthy(currency) then " AND currency_code = ?" else "")
  {
    var r := if Truthy(region) then [Filter("region", region.value)] else [];
    var c := if Truthy(currency) then [Filter("currency_code", currency.value)] else [];
    assert Filters(region, currency) == r + c;
    FilterSqlAppend(r, c);
    if Truthy(region) {
      FilterSqlRegion(region.value);
    }
    if Truthy(currency) {
      FilterSqlCurrency(currency.value);
    }
  }

  /** The listing's SQL written out clause by clause, as the handlers build it. */
  lemma ListSqlSpelledOut(region: Option<string>, currency: Option<string>, sort: Option<string>)
    ensures ListSql(region, currency, sort)
      == SelectAll
      + (if Truthy(region) then " AND region = ?" else "")
      + (if Truthy(currency) then " AND currency_code = ?" else "")
      + OrderSql(SortOrder(sort))
  {
    FilterSqlSpelledOut(region, currency);
    Regroup(SelectAll, FilterSql(Filters(region, currency)),
      if Truthy(region) then " AND region = ?" else "",
      if Truthy(currency) then " AND currency_code = ?" else "",
      OrderSql(SortOrder(sort)));
  }

  lemma Regroup(head: string, middle: string, left: string, right: string, tail: string)
    requires middle == left + right
    ensures head + middle + tail == head + left + right + tail
  {
  }

  /** The listing's parameters written out: the region value, then the currency value, each when truthy. */
  lemma ParamsSpelledOut(region: Option<string>, currency: Option<string>)
    ensures Params(Filters(region, currency))
      == (if Truthy(region) then [region.value] else []) + (if Truthy(currency) then [currency.value] else [])
  {
  }

  /** The listing binds exactly as many parameters as its SQL has placeholders. */
  lemma ListSqlPlaceholders(region: Option<string>, currency: Option<string>, sort: Option<string>)
    ensures Placeholders(ListSql(region, currency, sort)) == |Params(Filters(region, currency))|
  {
    var fs := Filters(region, currency);
    FilterSqlPlaceholders(fs);
    PlaceholdersBetween(SelectAll, FilterSql(fs), OrderSql(SortOrder(sort)));
  }
}
