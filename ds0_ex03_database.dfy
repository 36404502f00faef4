/**
 * The data-science-0/ex03 revision of the DatabaseModifier. Its handlers
 * `raise` an f-string, and raising something that is not an exception is
 * itself a TypeError, so every failure surfaces as a TypeError.
 */
module Ds0Ex03Database {
  import opened Outcomes
  import opened Text
  import opened Ddl
  import opened Store
  import opened CsvInfo

  /** `csv_to_postgres_types`: category_id is INTEGER here. */
  const Types: map<string, string> :=
    map["event_time" := "TIMESTAMP", "event_type" := "VARCHAR(255)", "product_id" := "INTEGER",
        "price" := "FLOAT", "user_id" := "INTEGER", "user_session" := "VARCHAR(255)",
        "category_id" := "INTEGER", "category_code" := "VARCHAR(255)", "brand" := "VARCHAR(255)"]

  /** `_get_data_types(column, data_type)`: the pandas dtype is ignored. */
  function GetDataType(column: string, dataType: string): (r: Result<string>)
    ensures r.Ok? <==> column in KnownColumns
    ensures r.Err? ==> r.error == KeyError(column)
  {
    Lookup(Types, column)
  }

  /** The dtype argument does not change the answer. */
  lemma DataTypeIgnoresDtype(column: string, dtype1: string, dtype2: string)
    ensures GetDataType(column, dtype1) == GetDataType(column, dtype2)
  {
  }

  lemma TypesKnown()
    ensures Types.Keys == KnownColumns && CleanTypes(Types)
  {
  }

  /** `raise f'...'` of whatever was caught: the raise itself fails with a TypeError. */
  function Reraised(caught: Error): Error {
    TypeError
  }

  class DatabaseModifier {
    const db: Store

    constructor (database: Store)
      ensures db == database
    {
      db := database;
    }

    /** `create_tables_from_csv`: the CREATE under the file's stem, or a TypeError with nothing sent. */
    method CreateTablesFromCsv(csv: CSVInfo) returns (err: Option<Error>)
      requires csv.Valid()
      modifies db
      ensures var q := CreateSql(Types, Stem(csv.filename), Names(csv.types.value));
        && (q.Err? ==> err == Some(TypeError) && db.sent == old(db.sent))
        && (q.Ok? ==> err == None && db.sent == old(db.sent) + [q.value])
      ensures db.tables == old(db.tables)
    {
      var tableName := Stem(csv.filename);
      var query := BuildCreateTable(Types, tableName, Names(csv.types.value));
      if query.Err? {
        return Some(Reraised(query.error));
      }
      db.Execute(query.value);
      return None;
    }

    /** `load_csv_into_table`: COPY into the file's stem, or a TypeError with nothing sent. */
    method LoadCsvIntoTable(csv: CSVInfo, readable: bool) returns (err: Option<Error>)
      modifies db
      ensures !readable ==> err == Some(TypeError) && db.sent == old(db.sent)
      ensures readable ==> err == None && db.sent == old(db.sent) + [CopySql(Stem(csv.filename))]
      ensures db.tables == old(db.tables)
    {
      var tableName := Stem(csv.filename);
      if !readable {
        return Some(Reraised(NoSuchFile(csv.fullPath)));
      }
      db.Execute(CopySql(tableName));
      return None;
    }
  }
}
