/**
 * The data-science-1/ex03 revision of the DatabaseModifier. Its connection
 * raises on a rejected statement and its `execute` returns None; every
 * method catches whatever it meets and prints it, so each method here
 * returns the exception it printed.
 */
module Ds1Modifier {
  import opened Outcomes
  import opened Text
  import opened Ddl
  import opened Store
  import opened CsvInfo
  import Join

  /** `csv_to_postgres_types`: as the warehouse map, but event_time is DATETIME. */
  const Types: map<string, string> :=
    map["event_time" := "DATETIME", "event_type" := "VARCHAR(255)", "product_id" := "INTEGER",
        "price" := "FLOAT", "user_id" := "INTEGER", "user_session" := "VARCHAR(255)",
        "category_id" := "BIGINT", "category_code" := "VARCHAR(255)", "brand" := "VARCHAR(255)"]

  /** `_get_data_types`: the SQL type of a known column; any other column is a KeyError. */
  function GetDataType(column: string): (r: Result<string>)
    ensures r.Ok? <==> column in KnownColumns
    ensures r.Err? ==> r.error == KeyError(column)
    ensures r.Ok? ==> r.value != "" && r.value[|r.value| - 1] !in CommaSpace
  {
    Lookup(Types, column)
  }

  lemma TypesKnown()
    ensures Types.Keys == KnownColumns && CleanTypes(Types)
  {
  }

  /** The database accepts every type the CREATE declares for these columns. */
  predicate TypesAccepted(cols: seq<string>) {
    forall k :: 0 <= k < |cols| && cols[k] in Types ==> Types[cols[k]] in SqlTypes
  }

  /**
   * Of this revision's types only event_time's DATETIME is one the database
   * rejects: a CREATE of a table that does not exist yet fails iff it declares
   * event_time.
   */
  lemma {:induction false} EventTimeRejected(cols: seq<string>)
    ensures TypesAccepted(cols) <==> "event_time" !in cols
  {
    if "event_time" in cols {
      var k :| 0 <= k < |cols| && cols[k] == "event_time";
      assert Types[cols[k]] !in SqlTypes;
    } else {
      forall k | 0 <= k < |cols| && cols[k] in Types
        ensures Types[cols[k]] in SqlTypes
      {
        assert cols[k] != "event_time";
      }
    }
  }

  /**
   * `self.db.execute("SELECT COUNT(*) ...")[0]` as written: the store rejects
   * a missing table, and otherwise `execute` returns None, so subscripting
   * it is a TypeError. The count never yields a number.
   */
  function CountAsWritten(tables: Tables, name: string): (r: Result<nat>)
    ensures r.Err?
    ensures r.error == (if name in tables then TypeError else StoreError)
  {
    if name in tables then Err(TypeError) else Err(StoreError)
  }

  /** The count as evidently intended (`fetchone()[0]`): the number of rows of an existing table. */
  function CountCorrected(tables: Tables, name: string): (r: Result<nat>)
    ensures r.Ok? <==> name in tables
    ensures r.Ok? ==> r.value == |tables[name].rows|
    ensures r.Err? ==> r.error == StoreError
  {
    if name in tables then Ok(|tables[name].rows|) else Err(StoreError)
  }

  /** One batch of `remove_duplicates`: the temporary-table statements, ending in LIMIT and OFFSET. */
  function BatchDedupeSql(table: string, batchSize: nat, offset: nat): string {
    "CREATE TEMPORARY TABLE temp_" + table + " AS " +
    "SELECT DISTINCT t1.* FROM " + table + " t1 " +
    "WHERE NOT EXISTS (" +
    "    SELECT 1 FROM " + table + " t2 " +
    "    WHERE t1.event_type = t2.event_type " +
    "      AND t1.product_id = t2.product_id " +
    "      AND t1.price = t2.price " +
    "      AND ABS(EXTRACT(MICROSECOND FROM AGE(t1.event_time, t2.event_time))) < 1000000" +
    "      AND t1 <> t2" +
    "); " +
    "TRUNCATE " + table + "; " +
    "INSERT INTO " + table + " SELECT * FROM temp_" + table + ";" +
    "LIMIT " + Decimal(batchSize) + " OFFSET " + Decimal(offset) + ";"
  }

  /** The offsets `while offset < total_rows: ...; offset += batch_size` visits, starting at `from`. */
  function BatchOffsets(total: nat, batchSize: nat, from: nat): seq<nat>
    requires batchSize > 0
    decreases total - from
  {
    if from >= total then [] else [from] + BatchOffsets(total, batchSize, from + batchSize)
  }

  /**
   * The batches step by the batch size from `from`, stay below the total, and
   * the last one reaches it: their count times the batch size covers the rows
   * from `from` on and overshoots by less than one batch.
   */
  lemma {:induction false} BatchOffsetsCover(total: nat, batchSize: nat, from: nat)
    requires batchSize > 0
    ensures var r := BatchOffsets(total, batchSize, from);
      && (forall k :: 0 <= k < |r| ==> r[k] == from + k * batchSize && r[k] < total)
      && (|r| == 0 <==> from >= total)
      && (from < total ==> total <= from + |r| * batchSize < total + batchSize)
    decreases total - from
  {
    if from < total {
      var next := from + batchSize;
      BatchOffsetsCover(total, batchSize, next);
      var rest := BatchOffsets(total, batchSize, next);
      var r := BatchOffsets(total, batchSize, from);
      assert r == [from] + rest;
      forall k | 0 < k < |r|
        ensures r[k] == from + k * batchSize
      {
        assert r[k] == rest[k - 1] == next + (k - 1) * batchSize;
        assert (k - 1) * batchSize + batchSize == k * batchSize;
      }
      assert from + |r| * batchSize == next + |rest| * batchSize by {
        assert |r| * batchSize == |rest| * batchSize + batchSize;
      }
    }
  }

  function BatchStatements(table: string, batchSize: nat, offsets: seq<nat>): (r: seq<string>)
    ensures |r| == |offsets| && forall k :: 0 <= k < |offsets| ==> r[k] == BatchDedupeSql(table, batchSize, offsets[k])
  {
    seq(|offsets|, k requires 0 <= k < |offsets| => BatchDedupeSql(table, batchSize, offsets[k]))
  }

  lemma BatchStatementsSnoc(table: string, batchSize: nat, offsets: seq<nat>, offset: nat)
    ensures BatchStatements(table, batchSize, offsets + [offset]) ==
      BatchStatements(table, batchSize, offsets) + [BatchDedupeSql(table, batchSize, offset)]
  {
  }

  lemma ProgressStep(count: nat, batchSize: nat)
    ensures (count + 1) * batchSize == count * batchSize + batchSize
  {
  }

  class DatabaseModifier {
    const db: Store

    constructor (database: Store)
      ensures db == database
    {
      db := database;
    }

    /**
     * `create_tables_from_csv`: the CREATE under the file's stem, over the
     * columns of its dtypes in order; an unknown column is printed and nothing
     * is sent. The statement is sent otherwise. `IF NOT EXISTS` skips, with a
     * notice and before any column type is resolved, when the table already
     * exists; for a new table a type the database rejects makes this
     * connection raise, and the error is printed.
     */
    method CreateTablesFromCsv(csv: CSVInfo) returns (printed: Option<Error>)
      requires csv.Valid()
      modifies db
      ensures var cols := Names(csv.types.value);
        var q := CreateSql(Types, Stem(csv.filename), cols);
        && (q.Err? ==> printed == Some(q.error) && db.sent == old(db.sent))
        && (q.Ok? ==> db.sent == old(db.sent) + [q.value] &&
                      printed == (if TypesAccepted(cols) || Stem(csv.filename) in old(db.tables)
                                 then None else Some(StoreError)))
      ensures db.tables == old(db.tables)
    {
      var tableName := Stem(csv.filename);
      var cols := Names(csv.types.value);
      var query := BuildCreateTable(Types, tableName, cols);
      if query.Err? {
        return Some(query.error);
      }
      var existed := tableName in db.tables;
      db.Execute(query.value);
      if !TypesAccepted(cols) && !existed {
        return Some(StoreError);
      }
      return None;
    }

    /** `load_csv_into_table`: as the warehouse's, with the exception printed instead of raised. */
    method LoadCsvIntoTable(csv: CSVInfo, readable: bool, tableName: Option<string> := None)
      returns (printed: Option<Error>)
      modifies db
      ensures !readable ==> printed == Some(NoSuchFile(csv.fullPath)) && db.sent == old(db.sent)
      ensures readable ==> printed == None && db.sent == old(db.sent) + [CopySql(LoadTarget(csv.filename, tableName))]
      ensures db.tables == old(db.tables)
    {
      var target := if tableName.None? || tableName.value == "" then Stem(csv.filename) else tableName.value;
      if !readable {
        return Some(NoSuchFile(csv.fullPath));
      }
      db.Execute(CopySql(target));
      return None;
    }

    /**
     * `merge_existing_tables_to_one`: without a name, a ValueError; otherwise
     * the CREATE ... AS alone (no TRUNCATE), its rejection printed.
     */
    method MergeExistingTablesToOne(tables: seq<string>, name: Option<string> := None)
      returns (printed: Option<Error>)
      modifies db
      ensures (name.None? || name.value == "") ==>
        printed == Some(ValueError) && db.sent == old(db.sent) && db.tables == old(db.tables)
      ensures name.Some? && name.value != "" ==>
        var effect := CreateAsEffect(old(db.tables), name.value, MergeSources(tables));
        && db.tables == Applied(old(db.tables), effect)
        && db.sent == old(db.sent) + [MergeSql(name.value, tables)]
        && printed == (if effect.Err? then Some(StoreError) else None)
    {
      if name.None? || name.value == "" {
        return Some(ValueError);
      }
      var query := BuildMergeQuery(name.value, tables);
      var accepted := db.CreateTableAs(query, name.value, MergeSources(tables));
      if !accepted {
        return Some(StoreError);
      }
      return None;
    }

    /** `drop_table`: DROP TABLE IF EXISTS, which never fails. */
    method DropTable(tableName: string)
      modifies db
      ensures db.tables == DropEffect(old(db.tables), tableName) && tableName !in db.tables
      ensures db.sent == old(db.sent) + [DropSql(tableName)]
    {
      db.Drop(DropSql(tableName), tableName);
    }

    /**
     * `remove_duplicates` as written: the row count fails before the loop, so
     * the call prints that error and sends and changes nothing.
     */
    method RemoveDuplicates(tableName: string, batchSize: int := 1000) returns (printed: Option<Error>)
      modifies db
      ensures printed == Some(CountAsWritten(old(db.tables), tableName).error)
      ensures db.tables == old(db.tables) && db.sent == old(db.sent)
    {
      var totalRows := CountAsWritten(db.tables, tableName);
      if totalRows.Err? {
        return Some(totalRows.error);
      }
      assert false;
    }

    /**
     * `join_tables_batch` as written: the row count of table1 fails first, so
     * the call prints that error and sends and changes nothing.
     */
    method JoinTablesBatch(table1: string, table2: string, commonColumn: string, batchSize: int := 1000)
      returns (printed: Option<Error>)
      modifies db
      ensures printed == Some(CountAsWritten(old(db.tables), table1).error)
      ensures db.tables == old(db.tables) && db.sent == old(db.sent)
    {
      var totalRows := CountAsWritten(db.tables, table1);
      if totalRows.Err? {
        return Some(totalRows.error);
      }
      assert false;
    }

    /**
     * `remove_duplicates` with the count read as intended: one batch statement
     * per offset 0, b, 2b, ... below the row count, and the progress bar
     * advanced by b per batch. The batch statements' effect is not modelled.
     */
    method RemoveDuplicatesCorrected(tableName: string, batchSize: nat := 1000)
      returns (printed: Option<Error>, progress: nat)
      requires batchSize > 0
      modifies db
      ensures db.tables == old(db.tables)
      ensures tableName !in old(db.tables) ==> printed == Some(StoreError) && progress == 0 && db.sent == old(db.sent)
      ensures tableName in old(db.tables) ==>
        var offsets := BatchOffsets(|old(db.tables)[tableName].rows|, batchSize, 0);
        && printed == None
        && db.sent == old(db.sent) + BatchStatements(tableName, batchSize, offsets)
        && progress == |offsets| * batchSize
    {
      var total := CountCorrected(db.tables, tableName);
      if total.Err? {
        return Some(total.error), 0;
      }
      var totalRows := total.value;
      var offset: nat := 0;
      progress := 0;
      ghost var visited: seq<nat> := [];
      while offset < totalRows
        invariant visited + BatchOffsets(totalRows, batchSize, offset) == BatchOffsets(totalRows, batchSize, 0)
        invariant db.sent == old(db.sent) + BatchStatements(tableName, batchSize, visited)
        invariant progress == |visited| * batchSize
        invariant db.tables == old(db.tables)
        decreases totalRows - offset
      {
        var query := BatchDedupeSql(tableName, batchSize, offset);
        db.Execute(query);
        BatchStatementsSnoc(tableName, batchSize, visited, offset);
        ProgressStep(|visited|, batchSize);
        assert visited + [offset] + BatchOffsets(totalRows, batchSize, offset + batchSize) ==
          visited + BatchOffsets(totalRows, batchSize, offset);
        visited := visited + [offset];
        offset := offset + batchSize;
        progress := progress + batchSize;
      }
      assert visited == BatchOffsets(totalRows, batchSize, 0);
      return None, progress;
    }

    /**
     * `join_tables_batch` with the count read as intended: a missing table1
     * fails at the count and a missing table2 at `get_columns`; otherwise the
     * join, with a rejected UPDATE raised by this connection and printed.
     */
    method JoinTablesBatchCorrected(table1: string, table2: string, commonColumn: string)
      returns (printed: Option<Error>)
      modifies db
      ensures (table1 !in old(db.tables) || table2 !in old(db.tables)) ==>
        printed == Some(StoreError) && db.tables == old(db.tables) && db.sent == old(db.sent)
      ensures table1 in old(db.tables) && table2 in old(db.tables) ==>
        var o := Join.JoinEffect(old(db.tables), Types, table1, table2, commonColumn, true);
        db.tables == o.tables && db.sent == old(db.sent) + o.sent && printed == o.error
    {
      var total := CountCorrected(db.tables, table1);
      if total.Err? {
        return Some(total.error);
      }
      if table2 !in db.tables {
        return Some(StoreError);
      }
      printed := Join.Run(db, Types, table1, table2, commonColumn, true);
    }
  }

  /**
   * The corrected dedupe visits every row range exactly once: the offsets are
   * 0, b, 2b, ... below the count, and the progress bar ends at or past the
   * count by less than one batch.
   */
  lemma BatchProgress(total: nat, batchSize: nat)
    requires batchSize > 0
    ensures var offsets := BatchOffsets(total, batchSize, 0);
      && (forall k :: 0 <= k < |offsets| ==> offsets[k] == k * batchSize && offsets[k] < total)
      && total <= |offsets| * batchSize < total + batchSize
  {
    BatchOffsetsCover(total, batchSize, 0);
  }
}
