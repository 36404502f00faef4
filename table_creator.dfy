/**
 * The table creator of data-science-0/ex04: one
 * `CREATE TABLE IF NOT EXISTS <t> (id SERIAL PRIMARY KEY, <col> <type>...)`
 * per table name, and the table names taken from a directory listing.
 * A Python dict of columns is a list of (column, type) pairs in insertion order.
 */
module TableCreator {
  import opened Text
  import opened Store

  /** The `"<col> <type>"` item of each dict entry, in insertion order. */
  function Definitions(columns: seq<(string, string)>): (r: seq<string>)
    ensures |r| == |columns| && forall k :: 0 <= k < |columns| ==> r[k] == columns[k].0 + " " + columns[k].1
  {
    seq(|columns|, k requires 0 <= k < |columns| => columns[k].0 + " " + columns[k].1)
  }

  function SerialPrefix(table: string): string {
    "CREATE TABLE IF NOT EXISTS " + table + " (id SERIAL PRIMARY KEY"
  }

  /** The statement for one table: the prefix, `", <col> <type>"` per entry, `")"`. */
  function SerialCreateSql(table: string, columns: seq<(string, string)>): string {
    SerialPrefix(table) + Preceded(Definitions(columns), ", ") + ")"
  }

  /** Without columns the table gets only its serial key. */
  lemma SerialCreateEmpty(table: string)
    ensures SerialCreateSql(table, []) == "CREATE TABLE IF NOT EXISTS " + table + " (id SERIAL PRIMARY KEY)"
  {
  }

  /** With columns, the definitions follow the key after ", ", joined by ", " in dict order. */
  lemma SerialCreateJoined(table: string, columns: seq<(string, string)>)
    requires |columns| > 0
    ensures SerialCreateSql(table, columns) == SerialPrefix(table) + ", " + Join(Definitions(columns), ", ") + ")"
  {
    PrecededIsJoin(Definitions(columns), ", ");
  }

  /** The inner loop of `create_table`: the statement for one table. */
  method BuildSerialCreate(table: string, columns: seq<(string, string)>) returns (query: string)
    ensures query == SerialCreateSql(table, columns)
  {
    query := "CREATE TABLE IF NOT EXISTS " + table + " (id SERIAL PRIMARY KEY";
    ghost var defs: seq<string> := [];
    for i := 0 to |columns|
      invariant defs == Definitions(columns[..i])
      invariant query == SerialPrefix(table) + Preceded(defs, ", ")
    {
      var (column, dataType) := columns[i];
      PrecededSnoc(defs, column + " " + dataType, ", ");
      query := query + ", " + column + " " + dataType;
      defs := defs + [column + " " + dataType];
      assert columns[..i + 1] == columns[..i] + [columns[i]];
    }
    assert columns[..|columns|] == columns;
    query := query + ")";
  }

  /** One statement per table name, in list order. */
  function CreateStatements(tables: seq<string>, columns: seq<(string, string)>): (r: seq<string>)
    ensures |r| == |tables| && forall k :: 0 <= k < |tables| ==> r[k] == SerialCreateSql(tables[k], columns)
  {
    seq(|tables|, k requires 0 <= k < |tables| => SerialCreateSql(tables[k], columns))
  }

  class TableModifier {
    const db: Store

    constructor (database: Store)
      ensures db == database
    {
      db := database;
    }

    /** `create_table`: sends one CREATE per table in list order; the tables' contents are not modelled. */
    method CreateTable(listOfTables: seq<string>, columns: seq<(string, string)>)
      modifies db
      ensures db.sent == old(db.sent) + CreateStatements(listOfTables, columns)
      ensures db.tables == old(db.tables)
    {
      for i := 0 to |listOfTables|
        invariant db.sent == old(db.sent) + CreateStatements(listOfTables[..i], columns)
        invariant db.tables == old(db.tables)
      {
        var query := BuildSerialCreate(listOfTables[i], columns);
        assert CreateStatements(listOfTables[..i + 1], columns) ==
          CreateStatements(listOfTables[..i], columns) + [query];
        db.Execute(query);
      }
      assert listOfTables[..|listOfTables|] == listOfTables;
    }
  }

  /**
   * `get_csv_names` over the directory's listing (`os.listdir`): the text
   * before the first '.' of every name ending in ".csv", in listing order.
   */
  function GetCsvNames(listing: seq<string>): (r: seq<string>)
    ensures |r| <= |listing|
    ensures forall k :: 0 <= k < |r| ==> '.' !in r[k]
  {
    if |listing| == 0 then []
    else
      var init := GetCsvNames(listing[..|listing| - 1]);
      var last := listing[|listing| - 1];
      if EndsWith(last, ".csv") then init + [Stem(last)] else init
  }

  /** A name is reported exactly when some ".csv" entry of the listing has it as its stem. */
  lemma {:induction false} GetCsvNamesMembers(listing: seq<string>, name: string)
    ensures name in GetCsvNames(listing) <==>
      exists k :: 0 <= k < |listing| && EndsWith(listing[k], ".csv") && Stem(listing[k]) == name
  {
    if |listing| > 0 {
      var init := listing[..|listing| - 1];
      GetCsvNamesMembers(init, name);
      assert forall k :: 0 <= k < |init| ==> init[k] == listing[k];
      if name in GetCsvNames(listing) && name !in GetCsvNames(init) {
        assert EndsWith(listing[|listing| - 1], ".csv") && Stem(listing[|listing| - 1]) == name;
      }
    }
  }

  /** Entries of another kind contribute nothing, wherever they stand. */
  lemma {:induction false} GetCsvNamesAppend(xs: seq<string>, ys: seq<string>)
    ensures GetCsvNames(xs + ys) == GetCsvNames(xs) + GetCsvNames(ys)
  {
    if |ys| == 0 {
      assert xs + ys == xs;
    } else {
      var init := ys[..|ys| - 1];
      GetCsvNamesAppend(xs, init);
      assert (xs + ys)[..|xs + ys| - 1] == xs + init;
    }
  }

  /** Only the first '.' counts: "a.b.csv" names the table "a"; other extensions are skipped. */
  lemma GetCsvNamesExample()
    ensures GetCsvNames(["a.b.csv", "notes.txt", "c.csv"]) == ["a", "c"]
  {
    var l := ["a.b.csv", "notes.txt", "c.csv"];
    assert l[..2][..1] == ["a.b.csv"];
    assert l[..2] == ["a.b.csv", "notes.txt"];
    assert EndsWith("a.b.csv", ".csv") && !EndsWith("notes.txt", ".csv") && EndsWith("c.csv", ".csv");
    assert Stem("a.b.csv") == "a";
    assert Stem("c.csv") == "c";
  }
}
