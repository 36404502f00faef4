/**
 * The warehouse revision of the DatabaseModifier. Its connection swallows a
 * rejected statement (execute catches ProgrammingError and answers None), and
 * every method re-raises the exceptions it meets (`check_errors`). Prompts
 * are inputs: `confirmed` is the user's "y".
 */
module WarehouseModifier {
  import opened Outcomes
  import opened Text
  import opened Ddl
  import opened Store
  import opened StoreLaws
  import opened CsvInfo
  import Join

  /** `csv_to_postgres_types`. */
  const Types: map<string, string> :=
    map["event_time" := "TIMESTAMP", "event_type" := "VARCHAR(255)", "product_id" := "INTEGER",
        "price" := "FLOAT", "user_id" := "INTEGER", "user_session" := "VARCHAR(255)",
        "category_id" := "BIGINT", "category_code" := "VARCHAR(255)", "brand" := "VARCHAR(255)"]

  /** `_get_data_types`: the SQL type of a known column; any other column is a KeyError. */
  function GetDataType(column: string): (r: Result<string>)
    ensures r.Ok? <==> column in KnownColumns
    ensures r.Err? ==> r.error == KeyError(column)
    ensures r.Ok? ==> r.value != "" && r.value[|r.value| - 1] !in CommaSpace
  {
    Lookup(Types, column)
  }

  /** The map knows exactly the nine columns, and every type survives `rstrip(', ')`. */
  lemma TypesKnown()
    ensures Types.Keys == KnownColumns && CleanTypes(Types)
  {
  }

  /**
   * The CREATE statement: it exists exactly when every column is known, and
   * then it lists `<col> <type>` for every column in order, joined by ", ".
   */
  lemma CreateStatementShape(name: string, cols: seq<string>)
    ensures CreateSql(Types, name, cols).Ok? <==> forall k :: 0 <= k < |cols| ==> cols[k] in KnownColumns
    ensures CreateSql(Types, name, cols).Ok? ==>
      CreateSql(Types, name, cols).value == CreatePrefix(name) + Text.Join(ColumnDefs(Types, cols).value, ", ") + ")"
  {
    TypesKnown();
    CreateSqlShape(Types, name, cols);
  }

  /** `get_total_rows`: the COUNT(*) answer; for a missing table execute answers None and `None[0]` is a TypeError. */
  function TotalRowsOf(tables: Tables, name: string): (r: Result<nat>)
    ensures r.Ok? <==> name in tables
    ensures r.Ok? ==> r.value == |tables[name].rows|
    ensures r.Err? ==> r.error == TypeError
  {
    if name in tables then Ok(|tables[name].rows|) else Err(TypeError)
  }

  /** `get_columns`: the column names; for a missing table `cursor.description` is None and iterating it is a TypeError. */
  function ColumnsOf(tables: Tables, name: string): (r: Result<seq<string>>)
    ensures r.Ok? <==> name in tables
    ensures r.Ok? ==> r.value == tables[name].columns
    ensures r.Err? ==> r.error == TypeError
  {
    if name in tables then Ok(tables[name].columns) else Err(TypeError)
  }

  /** The rows `SELECT EXISTS(...)` fetches: always one row, holding the answer. */
  function ExistsRows(tables: Tables, name: string): (r: seq<seq<bool>>)
    ensures |r| == 1 && r[0] == [name in tables]
  {
    [[name in tables]]
  }

  /** `table_exists`: `bool(...)` of the fetched list, that is, whether the list is non-empty. */
  function TableExists(tables: Tables, name: string): bool {
    |ExistsRows(tables, name)| > 0
  }

  /** `table_exists` answers True for every name, including a table that does not exist. */
  lemma TableExistsAlwaysTrue(tables: Tables, name: string)
    requires name !in tables
    ensures TableExists(tables, name) && !ExistsRows(tables, name)[0][0]
  {
  }

  /** `table_exists` as evidently intended: the boolean inside the one fetched row. */
  function TableExistsCorrected(tables: Tables, name: string): (r: bool)
    ensures r <==> name in tables
  {
    ExistsRows(tables, name)[0][0]
  }

  /**
   * With the intended check, TRUNCATE is sent only for an existing table; the
   * merge still ends with the same tables, since the store rejects TRUNCATE
   * of a missing table.
   */
  lemma CorrectedCheckSameTables(tables: Tables, name: string, sources: Option<seq<string>>)
    ensures var truncated := if TableExistsCorrected(tables, name) then Applied(tables, TruncateEffect(tables, name)) else tables;
      Applied(truncated, CreateAsEffect(truncated, name, sources)) == TruncateThenCreate(tables, name, sources)
  {
  }

  /** The table name `create_tables_from_csv` uses: the file name verbatim, extension included. */
  function CreateTableName(csv: CSVInfo): string
    reads csv
  {
    csv.filename
  }

  /**
   * As written, create and load disagree on the table: for any file name with
   * a '.', `create_tables_from_csv` names the table with the extension and
   * `load_csv_into_table` copies into the stem.
   */
  lemma CreateAndLoadDiverge(csv: CSVInfo)
    requires '.' in csv.filename
    ensures CreateTableName(csv) != LoadTarget(csv.filename, None)
  {
    assert '.' !in LoadTarget(csv.filename, None);
  }

  /** The create's table name as evidently intended: the stem, as every other revision and the load use. */
  function CorrectedCreateTableName(csv: CSVInfo): (r: string)
    reads csv
    ensures '.' !in r && StartsWith(csv.filename, r)
  {
    Stem(csv.filename)
  }

  /** With the corrected name, the CREATE defines the very table the default COPY fills. */
  lemma CorrectedCreateMatchesLoad(csv: CSVInfo)
    ensures CorrectedCreateTableName(csv) == LoadTarget(csv.filename, None)
    ensures CorrectedCreateTableName(csv) == LoadTarget(csv.filename, Some(""))
  {
  }

  /** The rows the DELETE returned, as `execute` hands them back: an empty fetch becomes None. */
  function FetchedOrNone(rows: seq<Row>): (r: Option<seq<Row>>)
    ensures r.None? <==> rows == []
    ensures r.Some? ==> r.value == rows
  {
    if rows == [] then None else Some(rows)
  }

  class DatabaseModifier {
    const db: Store

    constructor (database: Store)
      ensures db == database
    {
      db := database;
    }

    /**
     * `create_tables_from_csv`: the CREATE for the file's columns under the
     * file name, or the KeyError of the first unknown column, with nothing sent.
     */
    method CreateTablesFromCsv(csv: CSVInfo) returns (err: Option<Error>)
      requires csv.Valid()
      modifies db
      ensures var q := CreateSql(Types, CreateTableName(csv), csv.listOfColumns.value);
        && (q.Err? ==> err == Some(q.error) && db.sent == old(db.sent))
        && (q.Ok? ==> err == None && db.sent == old(db.sent) + [q.value])
      ensures db.tables == old(db.tables)
    {
      var tableName := csv.filename;
      var query := BuildCreateTable(Types, tableName, csv.listOfColumns.value);
      if query.Err? {
        return Some(query.error);
      }
      db.Execute(query.value);
      return None;
    }

    /**
     * `load_csv_into_table`: COPY into the given table, or by default the
     * file's stem; a file that cannot be opened raises before anything is sent.
     */
    method LoadCsvIntoTable(csv: CSVInfo, readable: bool, tableName: Option<string> := None)
      returns (err: Option<Error>)
      modifies db
      ensures !readable ==> err == Some(NoSuchFile(csv.fullPath)) && db.sent == old(db.sent)
      ensures readable ==> err == None && db.sent == old(db.sent) + [CopySql(LoadTarget(csv.filename, tableName))]
      ensures db.tables == old(db.tables)
    {
      var target := csv.filename;
      if tableName.None? || tableName.value == "" {
        target := Stem(csv.filename);
      } else {
        target := tableName.value;
      }
      if !readable {
        return Some(NoSuchFile(csv.fullPath));
      }
      var query := "COPY " + target + " FROM STDIN DELIMITER ',' CSV HEADER;";
      db.Execute(query);
      return None;
    }

    /**
     * `merge_existing_tables_to_one`: without a name or tables, a ValueError;
     * otherwise TRUNCATE of the name (`table_exists` always says yes) and the
     * CREATE ... AS. Store rejections are swallowed.
     */
    method MergeExistingTablesToOne(tables: seq<string>, name: Option<string> := None)
      returns (err: Option<Error>)
      modifies db
      ensures (name.None? || name.value == "" || tables == []) ==>
        err == Some(ValueError) && db.sent == old(db.sent) && db.tables == old(db.tables)
      ensures !(name.None? || name.value == "" || tables == []) ==>
        && err == None
        && db.sent == old(db.sent) + [TruncateSql(name.value), MergeSql(name.value, tables)]
        && db.tables == TruncateThenCreate(old(db.tables), name.value, MergeSources(tables))
    {
      if name.None? || name.value == "" || |tables| == 0 {
        return Some(ValueError);
      }
      var n := name.value;
      if TableExists(db.tables, n) {
        var truncated := db.Truncate("TRUNCATE " + n, n);
      } else {
        assert false;
      }
      var query := BuildMergeQuery(n, tables);
      var created := db.CreateTableAs(query, n, MergeSources(tables));
      return None;
    }

    /**
     * `remove_duplicates`: a missing table fails at the row count; a refusal
     * changes nothing; otherwise the near-duplicate DELETE, returning the
     * deleted rows; a DELETE that deletes nothing fails at `len(None)`.
     */
    method RemoveDuplicates(tableName: string, confirmed: bool) returns (r: Result<Option<seq<Row>>>)
      modifies db
      ensures tableName !in old(db.tables) ==>
        r == Err(TypeError) && db.tables == old(db.tables) && db.sent == old(db.sent)
      ensures tableName in old(db.tables) && !confirmed ==>
        r == Ok(None) && db.tables == old(db.tables) && db.sent == old(db.sent)
      ensures tableName in old(db.tables) && confirmed ==>
        var effect := DeleteEffect(old(db.tables), tableName).value;
        && db.tables == effect.0
        && db.sent == old(db.sent) + [DeleteNearDuplicatesSql(tableName)]
        && r == (if effect.1 == [] then Err(TypeError) else Ok(Some(effect.1)))
    {
      var totalRows := TotalRowsOf(db.tables, tableName);
      if totalRows.Err? {
        return Err(totalRows.error);
      }
      if !confirmed {
        return Ok(None);
      }
      var accepted, deleted := db.DeleteNearDuplicates(DeleteNearDuplicatesSql(tableName), tableName);
      var result := FetchedOrNone(deleted);
      if result.None? {
        return Err(TypeError);
      }
      return Ok(result);
    }

    /**
     * `join_tables`: a missing table fails at `get_columns`; a refusal
     * changes nothing; otherwise the ALTERs, `.remove(key)` and the UPDATE,
     * with a rejected UPDATE swallowed by the connection.
     */
    method JoinTables(table1: string, table2: string, commonColumn: string, confirmed: bool)
      returns (err: Option<Error>)
      modifies db
      ensures (table1 !in old(db.tables) || table2 !in old(db.tables)) ==>
        err == Some(TypeError) && db.tables == old(db.tables) && db.sent == old(db.sent)
      ensures table1 in old(db.tables) && table2 in old(db.tables) && !confirmed ==>
        err == None && db.tables == old(db.tables) && db.sent == old(db.sent)
      ensures table1 in old(db.tables) && table2 in old(db.tables) && confirmed ==>
        var o := Join.JoinEffect(old(db.tables), Types, table1, table2, commonColumn, false);
        db.tables == o.tables && db.sent == old(db.sent) + o.sent && err == o.error
    {
      var columns1 := ColumnsOf(db.tables, table1);
      if columns1.Err? {
        return Some(columns1.error);
      }
      var columns2 := ColumnsOf(db.tables, table2);
      if columns2.Err? {
        return Some(columns2.error);
      }
      if !confirmed {
        return None;
      }
      err := Join.Run(db, Types, table1, table2, commonColumn, false);
    }
  }

  /** A swallowing connection never turns a rejected UPDATE into an exception. */
  lemma JoinNeverReportsStoreError(tables: Tables, t1: string, t2: string, key: string)
    requires t1 in tables && t2 in tables
    ensures Join.JoinEffect(tables, Types, t1, t2, key, false).error != Some(StoreError)
  {
  }
}
