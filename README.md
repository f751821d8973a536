# Country cache refresh: a Dafny model

This project models the core of a small service that caches country data.
The service fetches a country directory and an exchange-rate table, works out
each country's currency, exchange rate and a random estimated GDP, and writes
the rows into a MySQL `countries` table. It also draws a summary image of the
top five countries by estimated GDP, and it serves listing, get and delete
requests on the table.

The repository holds two versions of this logic that disagree. This model
keeps them apart, and each is modelled as written:

- `server.js` (module `Server`). The refresh gives 503 when a source is not
  ok. Each entry is normalised; an unknown rate stays null and gives a GDP of
  0. Rows are upserted one by one; a failed upsert is skipped and does not
  count. The top five come from a sorted copy of the working set. Get and
  delete compare `LOWER(name)`.
- `routes/countries.js` (module `Routes`). The refresh empties the table. It
  skips entries with no name, a falsy population or no first currency code.
  An unknown rate becomes 1. Inserts run in order, and the first one that
  throws ends the refresh with 500. Get and delete compare the name exactly.

Shared modules:

- `Countries`: the raw directory entry, JavaScript truthiness, and NaN.
- `Store`: the table, as a sequence of rows with unique names, together with
  the SQL statements both versions issue.
- `ListQuery`: the SQL text and bound parameters of the listing.

Randomness, fetches, the database's failures and the image write all become
parameters:

- each `Math.random()` is a `draw` in [0, 1);
- each fetch is a `Fetch` value: ok flag, status and parsed body;
- the inserts that fail are a caller-chosen set of entry indices;
- whether the image write throws is a flag.

Some behaviours of the code a reader may not expect, which the model keeps:

- In `server.js` an unknown rate gives an estimated GDP of 0, not an absent
  value.
- `routes/countries.js` falls back to a rate of 1.
- In `server.js` a failure while writing the summary image reaches the outer
  `catch`, so the reply is 500 after the rows have been written.
- The GDP in `server.js` uses the raw `c.population`, not the defaulted one.
  An entry that has a rate but no population therefore gets NaN, while its
  `population` column is 0.

## Model

| member | source | states |
|---|---|---|
| Countries.RandomMultiplier | server.js:69 | the multiplier `floor(random * 1001) + 1000` lies in [1000, 2000] |
| Countries.MultiplierCoversRange | routes/countries.js:9 | every integer in [1000, 2000] is produced by some draw in [0, 1) |
| Countries.ScaledBetween | server.js:70-72 | for a non-negative population and a positive rate, `population * m / rate` lies between its values for m = 1000 and m = 2000 |
| Countries.OrNull | server.js:76-79 | `x \|\| null` is the string exactly when it is non-empty, and null otherwise |
| Store.Lower | server.js:165 | LOWER keeps the length, turns each letter A-Z into its lower-case letter and changes no other character |
| Store.LowerIdempotent | server.js:165 | lower-casing twice is lower-casing once |
| Store.ByNameKeys | server.js:27-29 | the table viewed as a dictionary has exactly the stored names as keys |
| Store.ByNameOfUnique | server.js:29 | with the UNIQUE name key, the dictionary has one entry per row, holding that row's columns |
| Store.UpsertedView | server.js:89-100 | INSERT ... ON DUPLICATE KEY UPDATE keeps names unique, sets every non-key column under the name, changes no other entry, and adds a row exactly when the name was new |
| Store.Where | server.js:165 | a SELECT on the name returns exactly the stored rows that match it |
| Store.WhereNot | server.js:178 | a DELETE on the name leaves exactly the rows that do not match; the rows left plus the affected rows make up the table |
| Store.WhereNotKeepsUnique | server.js:178 | a DELETE keeps names unique |
| Store.ExactSelectsAtMostOne | routes/countries.js:104 | under the UNIQUE key an exact-name WHERE selects at most one row |
| Store.LowerCaseVariantsSelectAlike | server.js:165-167 | two names that lower-case alike select and delete the same rows |
| Store.DeleteThenSelectNothing | server.js:178-181 | after a DELETE the same WHERE selects nothing |
| Store.CountriesTable.InsertOrUpdate | server.js:89-100 | the table becomes the upsert of the old table; names stay unique |
| Store.CountriesTable.Insert | routes/countries.js:37-51 | a plain INSERT appends the row when its name is new and is refused (table unchanged) when the name is taken |
| Store.CountriesTable.DeleteAll | routes/countries.js:27 | `DELETE FROM countries` leaves the table empty |
| Store.CountriesTable.DeleteWhere | server.js:178-181 | the table loses exactly the matching rows and `affectedRows` is their number |
| ListQuery.Filters | server.js:143-150 | a region filter when the region is truthy, then a currency filter when the currency is truthy, in that order |
| ListQuery.Params | server.js:141-150 | the bound parameters are the filters' values, one per filter, in order |
| ListQuery.SortOrder | server.js:152-153 | the listing is ordered descending exactly for `gdp_desc`, ascending exactly for `gdp_asc`, and otherwise not at all |
| ListQuery.FilterSqlPlaceholders | server.js:144-149 | each filter clause adds exactly one `?` |
| ListQuery.ListSqlPlaceholders | server.js:140-155 | the listing's SQL has exactly as many `?` placeholders as parameters |
| ListQuery.ListSqlSpelledOut | routes/countries.js:64-78 | the listing's SQL is the base SELECT, the region clause, the currency clause and the ORDER BY clause, in that order |
| ListQuery.ParamsSpelledOut | routes/countries.js:65-75 | the parameters are the region value and then the currency value, each present only when truthy |
| Server.Normalize | server.js:66-84 | The name is kept. The capital, region and flag become null when falsy; the population becomes 0 when falsy. The currency code is `currencies[0].code`, or null without a first currency. The rate is `rates[code]` exactly when the code and that rate are truthy, with no default. A null rate gives GDP 0. A rate with no population gives NaN. With a rate and a population, the GDP is a number with `gdp * rate == population * m` for the given integer multiplier m in [1000, 2000]. For a positive rate and a non-negative population it also lies between `population*1000/rate` and `population*2000/rate`. |
| Server.NormalizeAll | server.js:66-84 | the working set has one normalised record per raw entry, in the same order, each with its own draw |
| Server.SortByGdpSorted | server.js:217-218 | the sorted copy is in non-increasing order of `estimated_gdp \|\| 0` and is a permutation of the working set |
| Server.Top5 | server.js:216-219 | Holds min(5, n) records, in non-increasing key order (NaN and 0 count as 0). Takes only records of the working set, with multiplicity. No record left out has a larger key than any record kept. |
| Server.InsertedCountsSuccesses | server.js:86-116 | `inserted` equals the number of records whose upsert did not throw, so 0 <= inserted <= countries.length |
| Server.UpsertedUpToView | server.js:87-111 | after the loop, names are unique; the table viewed as a dictionary is the old one overwritten by what the successful upserts wrote, and every other row is unchanged |
| Server.WrittenHoldsLastSuccess | server.js:87-116 | a failing record does not stop later ones: every successful record's columns are stored under its name unless a later successful record with that name overwrote them |
| Server.WrittenOnlySuccesses | server.js:87-116 | only names of records whose upsert succeeded are written |
| Server.RerunKeepsTable | server.js:89-100 | running the same batch again leaves the same contents and the same number of rows |
| Server.UpsertCountries | server.js:86-116 | the loop leaves the table as the record-by-record upsert of the successful records and returns their count |
| Server.RefreshCountries | server.js:42-135 | A source that is not ok gives 503 naming it, writes nothing and draws no image. Otherwise the rates are `ratesData.rates || {}` (`RatesOrEmpty`, server.js:64), and the table gets the upserts and the image shows the total and the top five. The reply is 200 with the total, or 500 when the image write throws. |
| Server.BuildListQuery | server.js:140-153 | builds the listing SQL and parameters clause by clause; the placeholders match the parameters |
| Server.GetCountry | server.js:163-173 | 404 exactly when no row's lower-cased name equals the lower-cased request; otherwise the first such row |
| Server.DeleteCountry | server.js:176-186 | removes every row whose lower-cased name matches; 404 exactly when there was none |
| Server.DeletedInEveryCase | server.js:165-181 | once a name is deleted, every spelling that lower-cases alike finds nothing |
| Routes.CalculateEstimatedGdp | routes/countries.js:8-11 | the GDP is `population * k / rate` for an integer k in [1000, 2000], so for a positive rate it lies between the values for 1000 and 2000 |
| Routes.RateOrOne | routes/countries.js:34 | the rate is `rates[currency]` when that is truthy, and 1 otherwise; it is never null or zero |
| Routes.RowFor | routes/countries.js:33-50 | Name and population are stored unchanged. The currency code is the entry's first code. The rate is present and not zero. Capital, region and flag become null when falsy. The GDP is `calculateEstimatedGDP(population, rate)`: `population * k / rate` for an integer k in [1000, 2000], and between the values for 1000 and 2000 when the rate is positive and the population non-negative. |
| Routes.KeptRowsAreTheUnskipped | routes/countries.js:30-31 | one row per entry that is not `Skipped` (the `continue` test of routes/countries.js:31): it has a name, a truthy population and a first currency code; and each such entry's row is among them |
| Routes.RunInsertsSpec | routes/countries.js:27-57 | From the emptied table, names stay unique. While running, the table holds exactly the kept entries so far, in order. A stop at entry j leaves the kept entries before j, and j's insert threw. Without a rate payload nothing is inserted. |
| Routes.AbortedStays | routes/countries.js:30-57 | once an insert has thrown, the remaining entries change nothing |
| Routes.AllInsertsSucceed | routes/countries.js:27-52 | when no insert fails, the table ends up holding exactly the kept entries in input order |
| Routes.RefreshCountries | routes/countries.js:14-59 | a failed fetch gives 500 with the table untouched; otherwise the table ends as the insert run leaves it, and the reply is 200 exactly when no insert threw |
| Routes.BuildListQuery | routes/countries.js:64-78 | the two independent `if`s on `sort` build the same SQL and parameters as one if/else would; the placeholders match the parameters |
| Routes.GetCountry | routes/countries.js:88-99 | 404 exactly when no row has that exact name; otherwise that row |
| Routes.DeleteCountry | routes/countries.js:102-113 | removes the row with exactly that name, so at most one row; 404 exactly when there was none |
| Routes.ExactLookupIsCaseSensitive | routes/countries.js:90 | in any table, a stored row whose name has an upper-case letter is not selected by the exact lookup of its lower-case spelling, and is selected by the LOWER lookup |

## Left out

- HTTP routing, request parsing and JSON replies are left out. Replies are
  small datatypes. The route order in `server.js` is also not modelled:
  `/countries/:name` (line 163) comes before `/countries/image` (line 205).
- The network fetches are inputs (`Fetch`: ok flag, status, parsed body).
  `routes/countries.js` fetches in sequence with axios; a non-2xx status
  throws and gives 500, before the table is touched. JSON parsing errors
  are not modelled.
- The connection, pool setup and schema creation (`db.js`, `test-db.js`,
  `server.js:18-39`) are left out. Both versions share the column set of
  `server.js:27-38`. `routes/countries.js` writes columns (`region`,
  `currency_code`, `estimated_gdp`, `flag_url` and `last_refreshed_at`) that
  the table created in `db.js:57-67` does not have (it has `refresh_time`
  instead); this model does not capture that mismatch.
- Drawing the image, PNG encoding and the file write are left out, and so is
  `generateSummaryImage.js`. The model keeps what the image shows (the total
  and the top five) and a flag for a write that throws.
- Timestamps (`last_refreshed_at`, `NOW()`, `new Date()`) and the `/status`
  route are left out. Number formatting and FLOAT/DOUBLE rounding are left
  out: rates and GDP are exact reals.
- Concurrency is left out. Neither version guards against two refreshes at
  once.
- The database compares names exactly, as under a binary collation. Under
  MySQL's usual case-insensitive collation the UNIQUE key and the exact-name
  lookups of `routes/countries.js` would also ignore case.
- LOWER folds only the ASCII letters A-Z.
- JavaScript `null` and `undefined` are both `None`, and the model treats a
  missing value as `undefined`. In `server.js` an entry without a name
  (`undefined`) makes the driver refuse the bind. The model counts that
  upsert as a failure and stores nothing.
- A name that is JSON `null` is not modelled. `server.js:29` declares
  `name VARCHAR(255) UNIQUE` without NOT NULL, and UNIQUE admits any number
  of NULLs. So such an entry inserts a new NULL-named row on every refresh,
  and `inserted++` (`server.js:112`) counts it. Table rows here always have
  a string name, so the model has no NULL-named rows.
- A `currency_code` that is `undefined` also makes the driver throw. That
  case is left to the caller-chosen set of failing upserts.
- A population that is JSON `null` is treated as absent. That gives NaN,
  where JavaScript's `null * k` would give 0.
- Database errors in get and delete are not modelled. In both versions
  such an error replies 500 (`server.js:170-171`, `server.js:183-184`,
  `routes/countries.js:96-97`, `routes/countries.js:110-111`). The model's
  replies have only the found and 404 cases.
- A fetch that rejects in `server.js` is not modelled: a network failure
  in the `Promise.all` at `server.js:46-49` reaches the outer `catch` and
  replies 500, not 503 (`server.js:128-133`). The model's `Fetch` always
  resolves, with an ok flag and a status. The same holds for a body that
  is not JSON.
- A failing statement is taken to leave the table unchanged. The routes
  refresh's `DELETE FROM countries` is taken never to fail.
- `Routes.CalculateEstimatedGdp`: its bounds are stated for a positive rate
  only. For a negative rate only the existence of the multiplier is stated.
