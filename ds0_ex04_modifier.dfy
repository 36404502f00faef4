/**
 * The data-science-0/ex04 revision of the DatabaseModifier: create and load
 * under the file's stem, every exception printed, and `process_csv` running
 * one after the other. The coroutines await nothing concurrently, so they
 * are sequential methods here.
 */
module Ds0Ex04Modifier {
  import opened Outcomes
  import opened Text
  import opened Ddl
  import opened Store
  import opened CsvInfo

  /** `csv_to_postgres_types`: event_time is "timestamp NOT NULL". */
  const Types: map<string, string> :=
    map["event_time" := "timestamp NOT NULL", "event_type" := "VARCHAR(255)", "product_id" := "INTEGER",
        "price" := "FLOAT", "user_id" := "INTEGER", "user_session" := "VARCHAR(255)",
        "category_id" := "BIGINT", "category_code" := "VARCHAR(255)", "brand" := "VARCHAR(255)"]

  /** `_get_data_types(column, data_type)`: the pandas dtype is ignored; only the column name matters. */
  function GetDataType(column: string, dataType: string): (r: Result<string>)
    ensures r.Ok? <==> column in KnownColumns
    ensures r.Err? ==> r.error == KeyError(column)
  {
    Lookup(Types, column)
  }

  /** The dtype argument does not change the answer. */
  lemma DataTypeIgnoresDtype(column: string, dtype1: string, dtype2: string)
    ensures GetDataType(column, dtype1) == GetDataType(column, dtype2)
  {
  }

  lemma TypesKnown()
    ensures Types.Keys == KnownColumns && CleanTypes(Types)
  {
  }

  /** What `process_csv` sends: the CREATE if every column is known, then the COPY in any case. */
  function ProcessStatements(csvFilename: string, cols: seq<string>, readable: bool): seq<string> {
    var q := CreateSql(Types, Stem(csvFilename), cols);
    (if q.Ok? then [q.value] else []) + (if readable then [CopySql(Stem(csvFilename))] else [])
  }

  class DatabaseModifier {
    const db: Store

    constructor (database: Store)
      ensures db == database
    {
      db := database;
    }

    /** `create_tables_from_csv`: the CREATE under the file's stem; an unknown column is printed, nothing sent. */
    method CreateTablesFromCsv(csv: CSVInfo) returns (printed: Option<Error>)
      requires csv.Valid()
      modifies db
      ensures var q := CreateSql(Types, Stem(csv.filename), Names(csv.types.value));
        && (q.Err? ==> printed == Some(q.error) && db.sent == old(db.sent))
        && (q.Ok? ==> printed == None && db.sent == old(db.sent) + [q.value])
      ensures db.tables == old(db.tables)
    {
      var tableName := Stem(csv.filename);
      var query := BuildCreateTable(Types, tableName, Names(csv.types.value));
      if query.Err? {
        return Some(query.error);
      }
      db.Execute(query.value);
      return None;
    }

    /** `load_csv_into_table`: COPY into the file's stem; an unreadable file is printed, nothing sent. */
    method LoadCsvIntoTable(csv: CSVInfo, readable: bool) returns (printed: Option<Error>)
      modifies db
      ensures !readable ==> printed == Some(NoSuchFile(csv.fullPath)) && db.sent == old(db.sent)
      ensures readable ==> printed == None && db.sent == old(db.sent) + [CopySql(Stem(csv.filename))]
      ensures db.tables == old(db.tables)
    {
      var tableName := Stem(csv.filename);
      if !readable {
        return Some(NoSuchFile(csv.fullPath));
      }
      db.Execute(CopySql(tableName));
      return None;
    }

    /** `process_csv`: create, then load, whatever the create printed. */
    method ProcessCsv(csv: CSVInfo, readable: bool)
      requires csv.Valid()
      modifies db
      ensures db.sent == old(db.sent) + ProcessStatements(csv.filename, Names(csv.types.value), readable)
      ensures db.tables == old(db.tables)
    {
      var created := CreateTablesFromCsv(csv);
      var loaded := LoadCsvIntoTable(csv, readable);
    }
  }

  /** Create and load name the same table: the COPY targets the table the CREATE defines. */
  lemma ProcessTargetsOneTable(csvFilename: string, cols: seq<string>)
    requires forall k :: 0 <= k < |cols| ==> cols[k] in KnownColumns
    ensures var r := ProcessStatements(csvFilename, cols, true);
      && |r| == 2
      && StartsWith(r[0], CreatePrefix(Stem(csvFilename)))
      && r[1] == CopySql(Stem(csvFilename))
  {
    TypesKnown();
    CreateSqlShape(Types, Stem(csvFilename), cols);
    var q := CreateSql(Types, Stem(csvFilename), cols).value;
    var p := CreatePrefix(Stem(csvFilename));
    assert q == p + (Text.Join(ColumnDefs(Types, cols).value, ", ") + ")");
    assert q[..|p|] == p;
  }

  /** A file with an unknown column still gets its COPY: the failed create does not stop the load. */
  lemma ProcessLoadsAfterFailedCreate(csvFilename: string, cols: seq<string>, j: nat)
    requires j < |cols| && cols[j] !in KnownColumns
    ensures ProcessStatements(csvFilename, cols, true) == [CopySql(Stem(csvFilename))]
  {
    TypesKnown();
    assert cols[j] !in Types;
  }
}
