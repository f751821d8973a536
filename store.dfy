/**
 * The `countries` table (server.js:27-38) as an ordered sequence of rows whose
 * `name` column is UNIQUE, with the SQL statements the two variants issue
 * against it. String comparison is exact except where a statement applies
 * LOWER to both sides.
 */
module Store {
  import opened Wrappers
  import opened Countries

  /** SQL LOWER on one character, for the ASCII letters. */
  function LowerChar(ch: char): char {
    if 'A' <= ch <= 'Z' then (ch as int + 32) as char else ch
  }

  /** SQL LOWER: keeps the length, turns each upper-case letter into its lower-case letter and changes nothing else. */
  function Lower(s: string): (r: string)
    ensures |r| == |s|
    ensures forall i :: 0 <= i < |r| ==> !('A' <= r[i] <= 'Z')
    ensures forall i :: 0 <= i < |s| && 'A' <= s[i] <= 'Z' ==> r[i] == (s[i] as int + 32) as char
    ensures forall i :: 0 <= i < |r| && !('A' <= s[i] <= 'Z') ==> r[i] == s[i]
  {
    if s == [] then [] else [LowerChar(s[0])] + Lower(s[1..])
  }

  /** Lower-casing twice is lower-casing once. */
  lemma {:induction false} LowerIdempotent(s: string)
    ensures Lower(Lower(s)) == Lower(s)
  {
    if s != [] {
      LowerIdempotent(s[1..]);
      assert Lower(s)[1..] == Lower(s[1..]);
    }
  }

  /** How a WHERE clause compares the stored name with the given one. */
  datatype Comparison =
    | Exact      // `name = ?`
    | LowerCase  // `LOWER(name) = LOWER(?)`

  predicate Matches(cmp: Comparison, stored: string, given: string) {
    match cmp
    case Exact => stored == given
    case LowerCase => Lower(stored) == Lower(given)
  }

  /** No two rows share a name: the UNIQUE constraint on `name`. */
  predicate UniqueNames(rows: seq<Row>) {
    forall i, j :: 0 <= i < j < |rows| ==> rows[i].name != rows[j].name
  }

  function Names(rows: seq<Row>): set<string> {
    set r | r in rows :: r.name
  }

  /** The table seen as a dictionary from name to the other columns. */
  function ByName(rows: seq<Row>): map<string, Columns> {
    if rows == [] then map[] else ByName(rows[1..])[rows[0].name := rows[0].cols]
  }

  lemma NamesCons(r: Row, rows: seq<Row>)
    ensures Names([r] + rows) == {r.name} + Names(rows)
  {
    forall n | n in Names([r] + rows) ensures n in {r.name} + Names(rows) {
      var x :| x in [r] + rows && x.name == n;
      if x != r { assert x in rows; }
    }
  }

  /** A table with unique names splits into its first row and a tail that neither repeats it nor itself. */
  lemma UniqueTail(rows: seq<Row>)
    requires rows != [] && UniqueNames(rows)
    ensures UniqueNames(rows[1..]) && rows[0].name !in Names(rows[1..])
  {
    forall r | r in rows[1..] ensures r.name != rows[0].name {
      var j :| 0 <= j < |rows[1..]| && rows[1..][j] == r;
      assert rows[j + 1] == r;
    }
  }

  lemma UniqueCons(r: Row, rows: seq<Row>)
    requires UniqueNames(rows) && r.name !in Names(rows)
    ensures UniqueNames([r] + rows)
  {
    forall j | 1 <= j < |[r] + rows| ensures ([r] + rows)[j].name != r.name {
      assert ([r] + rows)[j] in rows;
    }
  }

  lemma {:induction false} ByNameKeys(rows: seq<Row>)
    ensures ByName(rows).Keys == Names(rows)
  {
    if rows != [] {
      ByNameKeys(rows[1..]);
      NamesCons(rows[0], rows[1..]);
      assert [rows[0]] + rows[1..] == rows;
    }
  }

  /** With unique names the dictionary has one entry per row, and each row's entry holds its columns. */
  lemma {:induction false} ByNameOfUnique(rows: seq<Row>)
    requires UniqueNames(rows)
    ensures |ByName(rows)| == |rows|
    ensures forall i :: 0 <= i < |rows| ==> rows[i].name in ByName(rows) && ByName(rows)[rows[i].name] == rows[i].cols
  {
    if rows != [] {
      UniqueTail(rows);
      ByNameOfUnique(rows[1..]);
      ByNameKeys(rows[1..]);
      forall i | 1 <= i < |rows| ensures rows[i].name in ByName(rows) && ByName(rows)[rows[i].name] == rows[i].cols {
        assert rows[i] == rows[1..][i - 1];
      }
    }
  }

  /**
   * `INSERT ... ON DUPLICATE KEY UPDATE` of every non-key column
   * (server.js:89-100): the row with that name gets the new columns in place;
   * a new name is appended.
   */
  function Upserted(rows: seq<Row>, name: string, cols: Columns): seq<Row> {
    if rows == [] then [Row(name, cols)]
    else if rows[0].name == name then [Row(name, cols)] + rows[1..]
    else [rows[0]] + Upserted(rows[1..], name, cols)
  }

  lemma {:induction false} UpsertedNames(rows: seq<Row>, name: string, cols: Columns)
    ensures Names(Upserted(rows, name, cols)) == Names(rows) + {name}
    ensures |Upserted(rows, name, cols)| == if name in Names(rows) then |rows| else |rows| + 1
  {
    if rows != [] {
      NamesCons(rows[0], rows[1..]);
      assert [rows[0]] + rows[1..] == rows;
      if rows[0].name == name {
        NamesCons(Row(name, cols), rows[1..]);
      } else {
        UpsertedNames(rows[1..], name, cols);
        NamesCons(rows[0], Upserted(rows[1..], name, cols));
      }
    }
  }

  lemma {:induction false} UpsertedByName(rows: seq<Row>, name: string, cols: Columns)
    ensures ByName(Upserted(rows, name, cols)) == ByName(rows)[name := cols]
  {
    var r := Upserted(rows, name, cols);
    if rows != [] {
      if rows[0].name == name {
        assert r[1..] == rows[1..];
      } else {
        UpsertedByName(rows[1..], name, cols);
        assert r[1..] == Upserted(rows[1..], name, cols);
      }
    }
  }

  lemma {:induction false} UpsertedUnique(rows: seq<Row>, name: string, cols: Columns)
    requires UniqueNames(rows)
    ensures UniqueNames(Upserted(rows, name, cols))
  {
    if rows != [] {
      UniqueTail(rows);
      if rows[0].name == name {
        UniqueCons(Row(name, cols), rows[1..]);
      } else {
        UpsertedUnique(rows[1..], name, cols);
        UpsertedNames(rows[1..], name, cols);
        UniqueCons(rows[0], Upserted(rows[1..], name, cols));
      }
    }
  }

  /**
   * An upsert keeps names unique, writes `cols` under `name` and changes no
   * other entry; it adds a row exactly when the name was new.
   */
  lemma UpsertedView(rows: seq<Row>, name: string, cols: Columns)
    requires UniqueNames(rows)
    ensures UniqueNames(Upserted(rows, name, cols))
    ensures ByName(Upserted(rows, name, cols)) == ByName(rows)[name := cols]
    ensures |Upserted(rows, name, cols)| == if name in Names(rows) then |rows| else |rows| + 1
    ensures Names(Upserted(rows, name, cols)) == Names(rows) + {name}
  {
    UpsertedNames(rows, name, cols);
    UpsertedByName(rows, name, cols);
    UpsertedUnique(rows, name, cols);
  }

  /** The rows a WHERE on `name` selects, in table order. */
  function Where(rows: seq<Row>, cmp: Comparison, name: string): (sel: seq<Row>)
    ensures forall r :: r in sel <==> r in rows && Matches(cmp, r.name, name)
    ensures |sel| <= |rows|
  {
    if rows == [] then []
    else if Matches(cmp, rows[0].name, name) then [rows[0]] + Where(rows[1..], cmp, name)
    else Where(rows[1..], cmp, name)
  }

  /** The rows a DELETE with that WHERE leaves, in table order. */
  function WhereNot(rows: seq<Row>, cmp: Comparison, name: string): (rest: seq<Row>)
    ensures forall r :: r in rest <==> r in rows && !Matches(cmp, r.name, name)
    ensures |rest| + |Where(rows, cmp, name)| == |rows|
  {
    if rows == [] then []
    else if Matches(cmp, rows[0].name, name) then WhereNot(rows[1..], cmp, name)
    else [rows[0]] + WhereNot(rows[1..], cmp, name)
  }

  lemma {:induction false} WhereNotKeepsUnique(rows: seq<Row>, cmp: Comparison, name: string)
    requires UniqueNames(rows)
    ensures UniqueNames(WhereNot(rows, cmp, name))
  {
    if rows != [] {
      WhereNotKeepsUnique(rows[1..], cmp, name);
      var rest := WhereNot(rows[1..], cmp, name);
      if !Matches(cmp, rows[0].name, name) {
        forall j | 0 <= j < |rest| ensures rest[j].name != rows[0].name {
          assert rest[j] in rows[1..];
        }
      }
    }
  }

  /** Under the UNIQUE constraint an exact WHERE on `name` selects at most one row. */
  lemma {:induction false} ExactSelectsAtMostOne(rows: seq<Row>, name: string)
    requires UniqueNames(rows)
    ensures |Where(rows, Exact, name)| <= 1
  {
    if rows != [] {
      ExactSelectsAtMostOne(rows[1..], name);
      if rows[0].name == name {
        UniqueTail(rows);
        NoMatchSelectsNothing(rows[1..], Exact, name);
      }
    }
  }

  /** Names that lower-case alike select the same rows under LOWER. */
  lemma {:induction false} LowerCaseVariantsSelectAlike(rows: seq<Row>, a: string, b: string)
    requires Lower(a) == Lower(b)
    ensures Where(rows, LowerCase, a) == Where(rows, LowerCase, b)
    ensures WhereNot(rows, LowerCase, a) == WhereNot(rows, LowerCase, b)
  {
    if rows != [] {
      LowerCaseVariantsSelectAlike(rows[1..], a, b);
    }
  }

  lemma {:induction false} NoMatchSelectsNothing(rows: seq<Row>, cmp: Comparison, name: string)
    requires forall r | r in rows :: !Matches(cmp, r.name, name)
    ensures Where(rows, cmp, name) == []
  {
    if rows != [] {
      NoMatchSelectsNothing(rows[1..], cmp, name);
    }
  }

  /** After a DELETE, the same WHERE selects nothing. */
  lemma {:induction false} DeleteThenSelectNothing(rows: seq<Row>, cmp: Comparison, name: string)
    ensures Where(WhereNot(rows, cmp, name), cmp, name) == []
  {
    if rows != [] {
      DeleteThenSelectNothing(rows[1..], cmp, name);
      var rest := WhereNot(rows[1..], cmp, name);
      if !Matches(cmp, rows[0].name, name) {
        assert ([rows[0]] + rest)[1..] == rest;
      }
    }
  }

  /** The `countries` table. */
  class CountriesTable {
    var rows: seq<Row>

    ghost predicate Valid()
      reads this
    {
      UniqueNames(rows)
    }

    constructor ()
      ensures Valid() && rows == []
    {
      rows := [];
    }

    /** `INSERT ... ON DUPLICATE KEY UPDATE` (server.js:89-100). */
    method InsertOrUpdate(name: string, cols: Columns)
      requires Valid()
      modifies this
      ensures Valid()
      ensures rows == Upserted(old(rows), name, cols)
    {
      UpsertedView(rows, name, cols);
      rows := Upserted(rows, name, cols);
    }

    /** A plain `INSERT` (routes/countries.js:37-51): refused when the name is already stored. */
    method Insert(row: Row) returns (ok: bool)
      requires Valid()
      modifies this
      ensures Valid()
      ensures ok <==> row.name !in Names(old(rows))
      ensures rows == if ok then old(rows) + [row] else old(rows)
    {
      ok := row.name !in Names(rows);
      if ok {
        forall i | 0 <= i < |rows| ensures rows[i].name != row.name {
          assert rows[i] in rows;
        }
        rows := rows + [row];
      }
    }

    /** `DELETE FROM countries` (routes/countries.js:27). */
    method DeleteAll()
      modifies this
      ensures Valid() && rows == []
    {
      rows := [];
    }

    /** `DELETE ... WHERE` on the name; the result is the number of affected rows. */
    method DeleteWhere(cmp: Comparison, name: string) returns (affectedRows: nat)
      requires Valid()
      modifies this
      ensures Valid()
      ensures rows == WhereNot(old(rows), cmp, name)
      ensures affectedRows == |Where(old(rows), cmp, name)|
    {
      WhereNotKeepsUnique(rows, cmp, name);
      affectedRows := |Where(rows, cmp, name)|;
      rows := WhereNot(rows, cmp, name);
    }
  }
}
