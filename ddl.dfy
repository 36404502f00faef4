/**
 * The SQL text the modifiers build: CREATE TABLE from a column list and a type
 * map, COPY, CREATE TABLE ... AS (SELECT ... UNION ALL ...), TRUNCATE, DROP,
 * ALTER TABLE ... ADD COLUMN, UPDATE ... FROM and the near-duplicate DELETE.
 * Every revision of the DatabaseModifier builds these the same way; what
 * differs is its type map and how it names the table.
 */
module Ddl {
  import opened Outcomes
  import opened Text

  /** The nine CSV column names every revision's type map knows. */
  const KnownColumns: set<string> :=
    {"event_time", "event_type", "product_id", "price", "user_id", "user_session",
     "category_id", "category_code", "brand"}

  /** `rstrip(', ')` strips commas and spaces. */
  const CommaSpace: set<char> := {',', ' '}

  /** `rstrip("UNION ALL ")` strips any of these characters. */
  const UnionAllChars: set<char> := {'U', 'N', 'I', 'O', 'L', 'A', ' '}

  /** Every SQL type of the map is non-empty and ends in a character `rstrip(', ')` keeps. */
  ghost predicate CleanTypes(types: map<string, string>) {
    forall c :: c in types ==> types[c] != "" && types[c][|types[c]| - 1] !in CommaSpace
  }

  /** The map's lookup, `csv_to_postgres_types[column]`. */
  function Lookup(types: map<string, string>, column: string): Result<string> {
    if column in types then Ok(types[column]) else Err(KeyError(column))
  }

  /** `cols[j]` is the first column of `cols` that the map does not know. */
  ghost predicate FirstUnmapped(types: map<string, string>, cols: seq<string>, j: int) {
    0 <= j < |cols| && cols[j] !in types && forall k :: 0 <= k < j ==> cols[k] in types
  }

  /**
   * The `"<col> <type>"` items for `cols` in order, or the KeyError of the first
   * column the map does not know (the loop stops there).
   */
  function ColumnDefs(types: map<string, string>, cols: seq<string>): (r: Result<seq<string>>)
    ensures r.Ok? <==> forall k :: 0 <= k < |cols| ==> cols[k] in types
    ensures r.Ok? ==> (|r.value| == |cols| &&
      forall k :: 0 <= k < |cols| ==> r.value[k] == cols[k] + " " + types[cols[k]])
    ensures r.Err? ==> exists j :: FirstUnmapped(types, cols, j) && r.error == KeyError(cols[j])
  {
    if |cols| == 0 then Ok([])
    else
      var init := ColumnDefs(types, cols[..|cols| - 1]);
      var last := cols[|cols| - 1];
      if init.Err? then init
      else if last in types then Ok(init.value + [last + " " + types[last]])
      else Err(KeyError(last))
  }

  /** Once a prefix of the columns fails, the whole list fails the same way. */
  lemma {:induction false} ColumnDefsPrefixErr(types: map<string, string>, cols: seq<string>, i: nat)
    requires i <= |cols| && ColumnDefs(types, cols[..i]).Err?
    ensures ColumnDefs(types, cols) == ColumnDefs(types, cols[..i])
  {
    if i < |cols| {
      ColumnDefsPrefixErr(types, cols[..|cols| - 1], i);
      assert cols[..|cols| - 1][..i] == cols[..i];
    } else {
      assert cols[..i] == cols;
    }
  }

  function CreatePrefix(name: string): string {
    "CREATE TABLE IF NOT EXISTS " + name + " ("
  }

  /**
   * The statement `create_tables_from_csv` builds, literally: the prefix, then
   * `"<col> <type>, "` per column, then `rstrip(', ')`, then `")"`.
   */
  function CreateSql(types: map<string, string>, name: string, cols: seq<string>): Result<string> {
    match ColumnDefs(types, cols)
    case Err(e) => Err(e)
    case Ok(defs) => Ok(RStrip(CreatePrefix(name) + Terminated(defs, ", "), CommaSpace) + ")")
  }

  /** The last character of a non-empty join is that of its last item. */
  lemma {:induction false} JoinLast(xs: seq<string>, sep: string)
    requires |xs| > 0 && xs[|xs| - 1] != ""
    ensures Join(xs, sep) != "" && Join(xs, sep)[|Join(xs, sep)| - 1] == xs[|xs| - 1][|xs[|xs| - 1]| - 1]
  {
  }

  /** Items that end in a kept character: the strip removes exactly the final ", ". */
  lemma StripDefs(prefix: string, defs: seq<string>)
    requires prefix != "" && prefix[|prefix| - 1] !in CommaSpace
    requires forall k :: 0 <= k < |defs| ==> defs[k] != "" && defs[k][|defs[k]| - 1] !in CommaSpace
    ensures RStrip(prefix + Terminated(defs, ", "), CommaSpace) == prefix + Join(defs, ", ")
  {
    if |defs| == 0 {
      assert prefix + Terminated(defs, ", ") == prefix;
    } else {
      TerminatedIsJoin(defs, ", ");
      JoinLast(defs, ", ");
      var x := prefix + Join(defs, ", ");
      LastOfAppend(prefix, Join(defs, ", "));
      Assoc3(prefix, Join(defs, ", "), ", ");
      RStripTrailing(x, ", ", CommaSpace);
    }
  }

  /**
   * With a clean type map, the CREATE statement is the prefix, the column
   * definitions in column order joined by ", ", and ")"; it fails exactly
   * when some column is unmapped.
   */
  lemma CreateSqlShape(types: map<string, string>, name: string, cols: seq<string>)
    requires CleanTypes(types)
    ensures CreateSql(types, name, cols).Ok? <==> forall k :: 0 <= k < |cols| ==> cols[k] in types
    ensures CreateSql(types, name, cols).Ok? ==>
      CreateSql(types, name, cols).value == CreatePrefix(name) + Join(ColumnDefs(types, cols).value, ", ") + ")"
  {
    var d := ColumnDefs(types, cols);
    if d.Ok? {
      var defs := d.value;
      forall k | 0 <= k < |defs| ensures defs[k] != "" && defs[k][|defs[k]| - 1] !in CommaSpace {
        LastOfAppend(cols[k] + " ", types[cols[k]]);
      }
      LastOfAppend("CREATE TABLE IF NOT EXISTS " + name, " (");
      StripDefs(CreatePrefix(name), defs);
    }
  }

  /** One more column: its definition is appended, or its KeyError ends the list. */
  lemma ColumnDefsStep(types: map<string, string>, cols: seq<string>, i: nat, defs: seq<string>)
    requires i < |cols| && ColumnDefs(types, cols[..i]) == Ok(defs)
    ensures ColumnDefs(types, cols[..i + 1]) ==
      if cols[i] in types then Ok(defs + [cols[i] + " " + types[cols[i]]]) else Err(KeyError(cols[i]))
  {
    assert cols[..i + 1][..i] == cols[..i];
  }

  /**
   * `create_tables_from_csv`'s loop: accumulates `"<col> <type>, "` per column,
   * stops with the KeyError of an unmapped column, then strips and closes.
   */
  method BuildCreateTable(types: map<string, string>, name: string, cols: seq<string>) returns (r: Result<string>)
    ensures r == CreateSql(types, name, cols)
  {
    var query := CreatePrefix(name);
    ghost var defs: seq<string> := [];
    for i := 0 to |cols|
      invariant ColumnDefs(types, cols[..i]) == Ok(defs)
      invariant query == CreatePrefix(name) + Terminated(defs, ", ")
    {
      var column := cols[i];
      if column !in types {
        ColumnDefsStep(types, cols, i, defs);
        ColumnDefsPrefixErr(types, cols, i + 1);
        return Err(KeyError(column));
      }
      var dataType := types[column];
      ColumnDefsStep(types, cols, i, defs);
      TerminatedSnoc(defs, column + " " + dataType, ", ");
      query := query + column + " " + dataType + ", ";
      defs := defs + [column + " " + dataType];
    }
    assert cols[..|cols|] == cols;
    query := RStrip(query, CommaSpace);
    query := query + ")";
    return Ok(query);
  }

  /**
   * The table `load_csv_into_table` copies into: the given name, or when it
   * is None or empty (`not table_name`), the file name up to its first '.'.
   */
  function LoadTarget(filename: string, tableName: Option<string>): (r: string)
    ensures tableName.Some? && tableName.value != "" ==> r == tableName.value
    ensures (tableName.None? || tableName.value == "") ==> '.' !in r && StartsWith(filename, r)
  {
    if tableName.None? || tableName.value == "" then Stem(filename) else tableName.value
  }

  /** The bulk load statement of `load_csv_into_table`. */
  function CopySql(table: string): string {
    "COPY " + table + " FROM STDIN DELIMITER ',' CSV HEADER;"
  }

  function DropSql(table: string): string {
    "DROP TABLE IF EXISTS " + table
  }

  function TruncateSql(table: string): string {
    "TRUNCATE " + table
  }

  function AlterSql(table: string, column: string, dataType: string): string {
    "ALTER TABLE " + table + " ADD COLUMN " + column + " " + dataType + ";"
  }

  /** `f"{column} = i.{column}"`. */
  function Assignments(cols: seq<string>): (r: seq<string>)
    ensures |r| == |cols|
  {
    seq(|cols|, k requires 0 <= k < |cols| => cols[k] + " = i." + cols[k])
  }

  /** The key-matched copy of `join_tables`, on one line. */
  function UpdateSql(table1: string, table2: string, key: string, setCols: seq<string>): string {
    "UPDATE " + table1 + " c SET " + Join(Assignments(setCols), ", ") + " FROM " + table2 +
    " i WHERE c." + key + " = i." + key + ";"
  }

  /** The near-duplicate DELETE of `remove_duplicates`, on one line. */
  function DeleteNearDuplicatesSql(table: string): string {
    "DELETE FROM " + table + " AS a WHERE EXISTS (SELECT 1 FROM " + table + " as b" +
    " WHERE a.ctid <> b.ctid AND a.product_id = b.product_id AND a.price = b.price" +
    " AND a.user_id = b.user_id AND a.user_session = b.user_session" +
    " AND ABS(EXTRACT(EPOCH FROM a.event_time - b.event_time)) <= 1) RETURNING *"
  }

  function MergePrefix(name: string): string {
    "CREATE TABLE IF NOT EXISTS " + name + " AS ("
  }

  function SelectFrom(table: string): string {
    "SELECT * FROM " + table
  }

  function Selects(tables: seq<string>): (r: seq<string>)
    ensures |r| == |tables| && forall k :: 0 <= k < |tables| ==> r[k] == SelectFrom(tables[k])
  {
    seq(|tables|, k requires 0 <= k < |tables| => SelectFrom(tables[k]))
  }

  /**
   * The statement `merge_existing_tables_to_one` builds, literally: the prefix,
   * `"SELECT * FROM <t> UNION ALL "` per table, `rstrip("UNION ALL ")`, `")"`.
   */
  function MergeSql(name: string, tables: seq<string>): string {
    RStrip(MergePrefix(name) + Terminated(Selects(tables), " UNION ALL "), UnionAllChars) + ")"
  }

  lemma SelectsStep(tables: seq<string>, i: nat)
    requires i < |tables|
    ensures Selects(tables[..i + 1]) == Selects(tables[..i]) + [SelectFrom(tables[i])]
  {
    assert tables[..i + 1][..i] == tables[..i];
  }

  /**
   * `merge_existing_tables_to_one`'s loop: one `SELECT ... UNION ALL ` per
   * table, in list order, then the character-set strip and `")"`.
   */
  method BuildMergeQuery(name: string, tables: seq<string>) returns (query: string)
    ensures query == MergeSql(name, tables)
  {
    query := MergePrefix(name);
    ghost var selects: seq<string> := [];
    for i := 0 to |tables|
      invariant selects == Selects(tables[..i])
      invariant query == MergePrefix(name) + Terminated(selects, " UNION ALL ")
    {
      SelectsStep(tables, i);
      TerminatedSnoc(selects, SelectFrom(tables[i]), " UNION ALL ");
      query := query + SelectFrom(tables[i]) + " UNION ALL ";
      selects := selects + [SelectFrom(tables[i])];
    }
    assert tables[..|tables|] == tables;
    query := RStrip(query, UnionAllChars);
    query := query + ")";
  }

  /**
   * The tables the emitted merge statement actually reads: the strip eats the
   * final "UNION ALL " and then every trailing character of the last table
   * name that is one of U, N, I, O, L, A or space. None when the statement
   * is malformed: no tables ("AS ()") or a last name eaten entirely.
   */
  function MergeSources(tables: seq<string>): Option<seq<string>> {
    if |tables| == 0 then None
    else
      var last := RStrip(tables[|tables| - 1], UnionAllChars);
      if last == "" then None else Some(tables[..|tables| - 1] + [last])
  }

  /** A trailing item that strips away entirely takes the space before it along. */
  lemma StripDangling(x: string, sel: string, last: string, sep: string, chars: set<char>)
    requires sel != "" && sel[|sel| - 1] !in chars && ' ' in chars
    requires forall k :: 0 <= k < |sep| ==> sep[k] in chars
    requires RStrip(last, chars) == ""
    ensures RStrip(x + (sel + " ") + last + sep, chars) == x + sel
  {
    Assoc3(x, sel, " ");
    StripTail(x + sel + " ", last, sep, chars);
    LastOfAppend(x, sel);
    RStripTrailing(x + sel, " ", chars);
  }

  /** Every character of " UNION ALL " is one `rstrip("UNION ALL ")` removes. */
  lemma UnionAllStripped()
    ensures forall k :: 0 <= k < |" UNION ALL "| ==> " UNION ALL "[k] in UnionAllChars
  {
  }

  /** Splitting the accumulator before its last SELECT. */
  lemma MergeAccumulatorSplit(name: string, tables: seq<string>)
    requires |tables| > 0
    ensures MergePrefix(name) + Terminated(Selects(tables), " UNION ALL ") ==
      MergePrefix(name) + Terminated(Selects(tables[..|tables| - 1]), " UNION ALL ") +
      "SELECT * FROM " + tables[|tables| - 1] + " UNION ALL "
  {
    var init := tables[..|tables| - 1];
    var last := tables[|tables| - 1];
    assert Selects(tables) == Selects(init) + [SelectFrom(last)];
    TerminatedSnoc(Selects(init), SelectFrom(last), " UNION ALL ");
    Assoc5(MergePrefix(name), Terminated(Selects(init), " UNION ALL "), "SELECT * FROM ", last, " UNION ALL ");
  }

  /**
   * When the statement is well formed, it is the SELECTs over MergeSources
   * joined by " UNION ALL ", inside the prefix and ")".
   */
  lemma MergeSqlReads(name: string, tables: seq<string>)
    requires MergeSources(tables).Some?
    ensures MergeSql(name, tables) ==
      MergePrefix(name) + Join(Selects(MergeSources(tables).value), " UNION ALL ") + ")"
  {
    var sep := " UNION ALL ";
    var init := tables[..|tables| - 1];
    var last := tables[|tables| - 1];
    var last' := RStrip(last, UnionAllChars);
    var t := Terminated(Selects(init), sep);
    var a := MergePrefix(name) + t + "SELECT * FROM ";
    MergeAccumulatorSplit(name, tables);
    UnionAllStripped();
    StripTail(a, last, sep, UnionAllChars);
    assert Selects(init + [last']) == Selects(init) + [SelectFrom(last')];
    JoinSnoc(Selects(init), SelectFrom(last'), sep);
    Assoc5(MergePrefix(name), t, "SELECT * FROM ", last', "");
  }

  /**
   * When the last table name does not end in one of the stripped characters,
   * the strip removes exactly the trailing " UNION ALL ": the statement is the
   * SELECTs over `tables` joined by " UNION ALL ".
   */
  lemma MergeSqlJoined(name: string, tables: seq<string>)
    requires |tables| > 0
    requires var last := tables[|tables| - 1]; last != "" && last[|last| - 1] !in UnionAllChars
    ensures MergeSources(tables) == Some(tables)
    ensures MergeSql(name, tables) == MergePrefix(name) + Join(Selects(tables), " UNION ALL ") + ")"
  {
    assert tables[..|tables| - 1] + [tables[|tables| - 1]] == tables;
    MergeSqlReads(name, tables);
  }

  /** With no tables the statement is `CREATE TABLE IF NOT EXISTS <name> AS ()`. */
  lemma MergeSqlEmpty(name: string)
    ensures MergeSql(name, []) == "CREATE TABLE IF NOT EXISTS " + name + " AS ()"
  {
    assert Terminated(Selects([]), " UNION ALL ") == "";
    assert MergePrefix(name) + "" == MergePrefix(name);
  }

  /** A last table name made only of stripped characters leaves a dangling `FROM`. */
  lemma MergeSqlDangling(name: string, tables: seq<string>)
    requires |tables| > 0 && RStrip(tables[|tables| - 1], UnionAllChars) == ""
    ensures MergeSources(tables) == None
    ensures MergeSql(name, tables) ==
      MergePrefix(name) + Terminated(Selects(tables[..|tables| - 1]), " UNION ALL ") + "SELECT * FROM" + ")"
  {
    var sep := " UNION ALL ";
    var last := tables[|tables| - 1];
    var x := MergePrefix(name) + Terminated(Selects(tables[..|tables| - 1]), sep);
    MergeAccumulatorSplit(name, tables);
    UnionAllStripped();
    var sel := "SELECT * FROM";
    assert sel[|sel| - 1] !in UnionAllChars;
    assert "SELECT * FROM " == sel + " ";
    StripDangling(x, sel, last, sep, UnionAllChars);
  }

  /**
   * The strip is a character-set strip, not a suffix removal: a last table
   * named "data_ALL" is read as "data_".
   */
  lemma MergeSqlEatsTableName()
    ensures MergeSources(["data_ALL"]) == Some(["data_"])
    ensures MergeSql("customer", ["data_ALL"]) == MergePrefix("customer") + SelectFrom("data_") + ")"
  {
    assert "data_ALL" == "data_" + "ALL";
    RStripAll("ALL", UnionAllChars);
    RStripAppend("data_", "ALL", UnionAllChars);
    assert RStrip("data_", UnionAllChars) == "data_";
    assert ["data_ALL"][..0] + ["data_"] == ["data_"];
    MergeSqlReads("customer", ["data_ALL"]);
    assert Selects(["data_"]) == [SelectFrom("data_")];
  }

  /** `s.removesuffix(suffix)`: drops `suffix` once if `s` ends with it. */
  function RemoveSuffix(s: string, suffix: string): (r: string)
    ensures EndsWith(s, suffix) ==> r + suffix == s
    ensures !EndsWith(s, suffix) ==> r == s
  {
    if EndsWith(s, suffix) then s[..|s| - |suffix|] else s
  }

  /** The merge statement as evidently intended: the trailing " UNION ALL " removed as a suffix. */
  function MergeSqlCorrected(name: string, tables: seq<string>): string {
    RemoveSuffix(MergePrefix(name) + Terminated(Selects(tables), " UNION ALL "), " UNION ALL ") + ")"
  }

  /** The corrected statement reads every table under its own name, whatever the name ends in. */
  lemma MergeSqlCorrectedReadsAll(name: string, tables: seq<string>)
    requires |tables| > 0
    ensures MergeSqlCorrected(name, tables) == MergePrefix(name) + Join(Selects(tables), " UNION ALL ") + ")"
  {
    var sep := " UNION ALL ";
    var x := MergePrefix(name) + Join(Selects(tables), sep);
    TerminatedIsJoin(Selects(tables), sep);
    assert MergePrefix(name) + Terminated(Selects(tables), sep) == x + sep;
    assert EndsWith(x + sep, sep) by {
      assert (x + sep)[|x + sep| - |sep|..] == sep;
    }
    assert (x + sep)[..|x + sep| - |sep|] == x;
  }

  /** Where the as-written strip does no harm, the two statements are the same. */
  lemma MergeSqlCorrectedAgrees(name: string, tables: seq<string>)
    requires |tables| > 0
    requires var last := tables[|tables| - 1]; last != "" && last[|last| - 1] !in UnionAllChars
    ensures MergeSqlCorrected(name, tables) == MergeSql(name, tables)
  {
    MergeSqlJoined(name, tables);
    MergeSqlCorrectedReadsAll(name, tables);
  }

  /** The corrected statement keeps "data_ALL" whole. */
  lemma MergeSqlCorrectedKeepsName()
    ensures MergeSqlCorrected("customer", ["data_ALL"]) == MergePrefix("customer") + SelectFrom("data_ALL") + ")"
  {
    MergeSqlCorrectedReadsAll("customer", ["data_ALL"]);
    assert Selects(["data_ALL"]) == [SelectFrom("data_ALL")];
  }
}
