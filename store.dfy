/**
 * An in-memory stand-in for the PostgreSQL store the modifiers talk to: named
 * tables of rows, and the log of the data-changing statements sent to it.
 * The effect of each statement whose meaning is modelled is a function of the
 * tables before it; a rejected statement leaves the tables as they were (its
 * transaction rolls back) but has still been sent.
 */
module Store {
  import opened Outcomes

  /** A cell. Timestamps are integer microseconds; a float is an opaque token compared only by equality. */
  datatype Value = Null | Int(n: int) | Text(s: string) | Timestamp(micros: int) | Float(token: int)

  /** A row; `id` stands in for PostgreSQL's `ctid`, unique within its table. */
  datatype Row = Row(id: nat, cells: map<string, Value>)

  datatype Table = Table(columns: seq<string>, rows: seq<Row>)

  type Tables = map<string, Table>

  /** The value of a column in a row; a column the row lacks reads as NULL. */
  function Field(r: Row, column: string): Value {
    if column in r.cells then r.cells[column] else Null
  }

  /** SQL `a = b` holds: NULL equals nothing, not even NULL. */
  predicate SqlEq(a: Value, b: Value) {
    a != Null && b != Null && a == b
  }

  /** Row ids stand for PostgreSQL's ctid: no two rows of a table share one. */
  predicate DistinctIds(rows: seq<Row>) {
    forall i, j :: 0 <= i < j < |rows| ==> rows[i].id != rows[j].id
  }

  /** The store's invariant: every table's row ids are distinct. */
  predicate ValidTables(tables: Tables) {
    forall n :: n in tables ==> DistinctIds(tables[n].rows)
  }

  /** The tables after a statement: its effect if the store accepted it, else unchanged. */
  function Applied(tables: Tables, effect: Result<Tables>): Tables {
    if effect.Ok? then effect.value else tables
  }

  /** `TRUNCATE <name>`: empties the table; an undefined table is an error. */
  function TruncateEffect(tables: Tables, name: string): Result<Tables> {
    if name in tables then Ok(tables[name := Table(tables[name].columns, [])]) else Err(StoreError)
  }

  /** `DROP TABLE IF EXISTS <name>` never fails. */
  function DropEffect(tables: Tables, name: string): Tables {
    tables - {name}
  }

  /**
   * `SELECT * FROM s1 UNION ALL ... SELECT * FROM sn` can run: at least one
   * source, every source defined, and (in this model) every source with the
   * first one's column list.
   */
  predicate UnionCompatible(tables: Tables, sources: seq<string>) {
    |sources| > 0
    && (forall k :: 0 <= k < |sources| ==> sources[k] in tables)
    && forall k :: 0 <= k < |sources| ==> tables[sources[k]].columns == tables[sources[0]].columns
  }

  /** The rows of the sources, source by source in list order. */
  function ConcatRows(tables: Tables, sources: seq<string>): seq<Row>
    requires forall k :: 0 <= k < |sources| ==> sources[k] in tables
  {
    if |sources| == 0 then []
    else ConcatRows(tables, sources[..|sources| - 1]) + tables[sources[|sources| - 1]].rows
  }

  /** The rows of a new table get fresh row ids 0, 1, 2, ... */
  function Renumber(rows: seq<Row>): (r: seq<Row>)
    ensures |r| == |rows|
    ensures forall k :: 0 <= k < |rows| ==> r[k].id == k && r[k].cells == rows[k].cells
  {
    seq(|rows|, k requires 0 <= k < |rows| => Row(k, rows[k].cells))
  }

  /**
   * `CREATE TABLE IF NOT EXISTS <name> AS (<union of sources>)`, where
   * `sources` is what the statement text actually reads (None: malformed).
   * The query is checked before the existence test, so a bad union fails
   * even when the target exists.
   */
  function CreateAsEffect(tables: Tables, name: string, sources: Option<seq<string>>): Result<Tables> {
    if sources.None? || !UnionCompatible(tables, sources.value) then Err(StoreError)
    else if name in tables then Ok(tables)
    else
      var first := tables[sources.value[0]];
      Ok(tables[name := Table(first.columns, Renumber(ConcatRows(tables, sources.value)))])
  }

  /**
   * The column declarations PostgreSQL accepts among those the revisions
   * write. "DATETIME" is not one of them: PostgreSQL has no type of that name,
   * so a CREATE or ALTER declaring it is rejected.
   */
  const SqlTypes: set<string> := {"TIMESTAMP", "timestamp NOT NULL", "VARCHAR(255)", "INTEGER", "BIGINT", "FLOAT"}

  /** One second, in microseconds. */
  const OneSecond: int := 1000000

  /** `ABS(EXTRACT(EPOCH FROM x - y)) <= 1`: both timestamps, at most a second apart. */
  predicate WithinOneSecond(x: Value, y: Value) {
    x.Timestamp? && y.Timestamp? && -OneSecond <= x.micros - y.micros <= OneSecond
  }

  /**
   * The DELETE's inner predicate: another row (different ctid) with equal
   * product_id, price, user_id and user_session, and an event_time within a
   * second. event_type is not compared.
   */
  predicate NearDuplicates(a: Row, b: Row) {
    a.id != b.id
    && SqlEq(Field(a, "product_id"), Field(b, "product_id"))
    && SqlEq(Field(a, "price"), Field(b, "price"))
    && SqlEq(Field(a, "user_id"), Field(b, "user_id"))
    && SqlEq(Field(a, "user_session"), Field(b, "user_session"))
    && WithinOneSecond(Field(a, "event_time"), Field(b, "event_time"))
  }

  /** `EXISTS (SELECT 1 FROM <table> AS b WHERE ...)` for the row `a`. */
  predicate HasTwin(a: Row, rows: seq<Row>) {
    exists b :: b in rows && NearDuplicates(a, b)
  }

  /** The rows of `xs`, in order, that have no near-duplicate in `all`. */
  function Survivors(xs: seq<Row>, all: seq<Row>): (r: seq<Row>)
    ensures |r| <= |xs|
    ensures forall a :: a in r <==> a in xs && !HasTwin(a, all)
  {
    if |xs| == 0 then []
    else
      var init := Survivors(xs[..|xs| - 1], all);
      var a := xs[|xs| - 1];
      if HasTwin(a, all) then init else init + [a]
  }

  /** The rows of `xs`, in order, that have a near-duplicate in `all`. */
  function Removed(xs: seq<Row>, all: seq<Row>): (r: seq<Row>)
    ensures |r| <= |xs|
    ensures forall a :: a in r <==> a in xs && HasTwin(a, all)
  {
    if |xs| == 0 then []
    else
      var init := Removed(xs[..|xs| - 1], all);
      var a := xs[|xs| - 1];
      if HasTwin(a, all) then init + [a] else init
  }

  /**
   * `DELETE FROM <name> AS a WHERE EXISTS (...) RETURNING *`: every row with
   * a near-duplicate goes, all decided against the table as it was; the
   * deleted rows are returned in table order.
   */
  function DeleteEffect(tables: Tables, name: string): Result<(Tables, seq<Row>)> {
    if name !in tables then Err(StoreError)
    else
      var t := tables[name];
      Ok((tables[name := Table(t.columns, Survivors(t.rows, t.rows))], Removed(t.rows, t.rows)))
  }

  /** `ALTER TABLE ... ADD COLUMN`: the column goes last and reads NULL in every row. */
  function WithColumn(t: Table, column: string): (r: Table)
    ensures r.columns == t.columns + [column] && |r.rows| == |t.rows|
    ensures forall k :: 0 <= k < |t.rows| ==>
      r.rows[k].id == t.rows[k].id && r.rows[k].cells == t.rows[k].cells[column := Null]
  {
    Table(t.columns + [column],
          seq(|t.rows|, k requires 0 <= k < |t.rows| => Row(t.rows[k].id, t.rows[k].cells[column := Null])))
  }

  /** An undefined table or an existing column name is an error. */
  function AddColumnEffect(tables: Tables, table: string, column: string): Result<Tables> {
    if table !in tables || column in tables[table].columns then Err(StoreError)
    else Ok(tables[table := WithColumn(tables[table], column)])
  }

  /**
   * One `ALTER TABLE <table> ADD COLUMN` per column, in order; a rejected one
   * leaves the tables as they were and the next one still runs.
   */
  function AddColumnsEffect(tables: Tables, table: string, cols: seq<string>): Tables {
    if |cols| == 0 then tables
    else
      var before := AddColumnsEffect(tables, table, cols[..|cols| - 1]);
      Applied(before, AddColumnEffect(before, table, cols[|cols| - 1]))
  }

  /**
   * The row of `rows` that `UPDATE ... FROM` pairs with a key value: the
   * first one whose key equals it. PostgreSQL takes an unspecified one when
   * several match; with a unique key it is the only one.
   */
  function FirstMatch(rows: seq<Row>, key: string, v: Value): (r: Option<Row>)
    ensures r.Some? ==> r.value in rows && SqlEq(Field(r.value, key), v)
    ensures r.None? <==> forall m :: m in rows ==> !SqlEq(Field(m, key), v)
  {
    if |rows| == 0 then None
    else if SqlEq(Field(rows[0], key), v) then Some(rows[0])
    else FirstMatch(rows[1..], key, v)
  }

  /** `SET c = i.c, ...` for a matched row; an unmatched row is left alone. */
  function UpdatedRow(r: Row, source: Option<Row>, setCols: seq<string>): Row {
    match source
    case None => r
    case Some(m) => Row(r.id, r.cells + map c | c in setCols :: Field(m, c))
  }

  /** What `UPDATE t1 c SET ... FROM t2 i WHERE c.key = i.key` needs to run. */
  predicate UpdateRuns(tables: Tables, t1: string, t2: string, key: string, setCols: seq<string>) {
    t1 in tables && t2 in tables
    && key in tables[t1].columns && key in tables[t2].columns
    && |setCols| > 0  // an empty SET list is a syntax error
    && forall c :: c in setCols ==> c in tables[t1].columns && c in tables[t2].columns
  }

  function UpdateEffect(tables: Tables, t1: string, t2: string, key: string, setCols: seq<string>): Result<Tables> {
    if !UpdateRuns(tables, t1, t2, key, setCols) then Err(StoreError)
    else
      var a := tables[t1];
      var b := tables[t2];
      Ok(tables[t1 := Table(a.columns,
        seq(|a.rows|, k requires 0 <= k < |a.rows| =>
          UpdatedRow(a.rows[k], FirstMatch(b.rows, key, Field(a.rows[k], key)), setCols)))])
  }

  lemma ReplaceKeepsValid(tables: Tables, name: string, t: Table)
    requires ValidTables(tables) && DistinctIds(t.rows)
    ensures ValidTables(tables[name := t])
  {
  }

  /** TRUNCATE, DROP and a rejected statement keep every table's row ids distinct. */
  lemma TruncateDropKeepValid(tables: Tables, name: string)
    requires ValidTables(tables)
    ensures ValidTables(Applied(tables, TruncateEffect(tables, name)))
    ensures ValidTables(DropEffect(tables, name))
  {
  }

  /** The table a merge creates has fresh, distinct ids. */
  lemma CreateAsKeepsValid(tables: Tables, name: string, sources: Option<seq<string>>)
    requires ValidTables(tables)
    ensures ValidTables(Applied(tables, CreateAsEffect(tables, name, sources)))
  {
    var effect := CreateAsEffect(tables, name, sources);
    if effect.Ok? && name !in tables {
      var rows := Renumber(ConcatRows(tables, sources.value));
      assert DistinctIds(rows);
      ReplaceKeepsValid(tables, name, Table(tables[sources.value[0]].columns, rows));
    }
  }

  /** Keeping some rows of a table, in order, keeps their ids distinct. */
  lemma {:induction false} SurvivorsDistinct(xs: seq<Row>, all: seq<Row>)
    requires DistinctIds(xs)
    ensures DistinctIds(Survivors(xs, all))
  {
    if |xs| > 0 {
      var init := xs[..|xs| - 1];
      var a := xs[|xs| - 1];
      assert DistinctIds(init);
      SurvivorsDistinct(init, all);
      var s := Survivors(init, all);
      if !HasTwin(a, all) {
        forall i | 0 <= i < |s|
          ensures s[i].id != a.id
        {
          assert s[i] in init;
          var j :| 0 <= j < |init| && init[j] == s[i];
          assert xs[j] == s[i];
        }
        assert Survivors(xs, all) == s + [a];
      }
    }
  }

  /** The near-duplicate DELETE keeps every table's row ids distinct. */
  lemma DeleteKeepsValid(tables: Tables, name: string)
    requires ValidTables(tables) && name in tables
    ensures ValidTables(DeleteEffect(tables, name).value.0)
  {
    var t := tables[name];
    SurvivorsDistinct(t.rows, t.rows);
    ReplaceKeepsValid(tables, name, Table(t.columns, Survivors(t.rows, t.rows)));
  }

  /** ADD COLUMN keeps every row's id. */
  lemma {:induction false} AddColumnsKeepValid(tables: Tables, table: string, cols: seq<string>)
    requires ValidTables(tables)
    ensures ValidTables(AddColumnsEffect(tables, table, cols))
  {
    if |cols| > 0 {
      AddColumnsKeepValid(tables, table, cols[..|cols| - 1]);
      var before := AddColumnsEffect(tables, table, cols[..|cols| - 1]);
      var last := cols[|cols| - 1];
      if AddColumnEffect(before, table, last).Ok? {
        ReplaceKeepsValid(before, table, WithColumn(before[table], last));
      }
    }
  }

  /** The UPDATE keeps every row's id. */
  lemma UpdateKeepsValid(tables: Tables, t1: string, t2: string, key: string, setCols: seq<string>)
    requires ValidTables(tables)
    ensures ValidTables(Applied(tables, UpdateEffect(tables, t1, t2, key, setCols)))
  {
    if UpdateEffect(tables, t1, t2, key, setCols).Ok? {
      var after := UpdateEffect(tables, t1, t2, key, setCols).value;
      assert forall k :: 0 <= k < |tables[t1].rows| ==> after[t1].rows[k].id == tables[t1].rows[k].id;
      ReplaceKeepsValid(tables, t1, after[t1]);
    }
  }

  /**
   * The database the modifiers hold: its tables and the statements sent so
   * far. Read-only statements (catalogue lookups, counts) are not logged.
   */
  class Store {
    var tables: Tables
    var sent: seq<string>

    constructor (initial: Tables)
      ensures tables == initial && sent == []
    {
      tables := initial;
      sent := [];
    }

    /** A statement whose effect on the tables is not modelled (CREATE TABLE, COPY). */
    method Execute(statement: string)
      modifies this
      ensures ValidTables(old(tables)) ==> ValidTables(tables)
      ensures tables == old(tables) && sent == old(sent) + [statement]
    {
      sent := sent + [statement];
    }

    method Truncate(statement: string, name: string) returns (ok: bool)
      modifies this
      ensures ValidTables(old(tables)) ==> ValidTables(tables)
      ensures ok == (name in old(tables))
      ensures tables == Applied(old(tables), TruncateEffect(old(tables), name))
      ensures sent == old(sent) + [statement]
    {
      var effect := TruncateEffect(tables, name);
      if ValidTables(tables) { TruncateDropKeepValid(tables, name); }
      tables := Applied(tables, effect);
      sent := sent + [statement];
      ok := effect.Ok?;
    }

    method CreateTableAs(statement: string, name: string, sources: Option<seq<string>>) returns (ok: bool)
      modifies this
      ensures ValidTables(old(tables)) ==> ValidTables(tables)
      ensures ok == CreateAsEffect(old(tables), name, sources).Ok?
      ensures tables == Applied(old(tables), CreateAsEffect(old(tables), name, sources))
      ensures sent == old(sent) + [statement]
    {
      var effect := CreateAsEffect(tables, name, sources);
      if ValidTables(tables) { CreateAsKeepsValid(tables, name, sources); }
      tables := Applied(tables, effect);
      sent := sent + [statement];
      ok := effect.Ok?;
    }

    method Drop(statement: string, name: string)
      modifies this
      ensures ValidTables(old(tables)) ==> ValidTables(tables)
      ensures tables == DropEffect(old(tables), name)
      ensures sent == old(sent) + [statement]
    {
      if ValidTables(tables) { TruncateDropKeepValid(tables, name); }
      tables := DropEffect(tables, name);
      sent := sent + [statement];
    }

    /** The near-duplicate DELETE; `deleted` is what RETURNING * fetches. */
    method DeleteNearDuplicates(statement: string, name: string) returns (ok: bool, deleted: seq<Row>)
      modifies this
      ensures ValidTables(old(tables)) ==> ValidTables(tables)
      ensures ok == (name in old(tables))
      ensures ok ==> (tables, deleted) == DeleteEffect(old(tables), name).value
      ensures !ok ==> tables == old(tables) && deleted == []
      ensures sent == old(sent) + [statement]
    {
      var effect := DeleteEffect(tables, name);
      sent := sent + [statement];
      ok := effect.Ok?;
      if ok {
        if ValidTables(tables) { DeleteKeepsValid(tables, name); }
        tables := effect.value.0;
        deleted := effect.value.1;
      } else {
        deleted := [];
      }
    }

    method AddColumn(statement: string, table: string, column: string) returns (ok: bool)
      modifies this
      ensures ValidTables(old(tables)) ==> ValidTables(tables)
      ensures ok == AddColumnEffect(old(tables), table, column).Ok?
      ensures tables == Applied(old(tables), AddColumnEffect(old(tables), table, column))
      ensures sent == old(sent) + [statement]
    {
      var effect := AddColumnEffect(tables, table, column);
      if effect.Ok? && ValidTables(tables) { ReplaceKeepsValid(tables, table, WithColumn(tables[table], column)); }
      tables := Applied(tables, effect);
      sent := sent + [statement];
      ok := effect.Ok?;
    }

    method UpdateFrom(statement: string, t1: string, t2: string, key: string, setCols: seq<string>) returns (ok: bool)
      modifies this
      ensures ValidTables(old(tables)) ==> ValidTables(tables)
      ensures ok == UpdateEffect(old(tables), t1, t2, key, setCols).Ok?
      ensures tables == Applied(old(tables), UpdateEffect(old(tables), t1, t2, key, setCols))
      ensures sent == old(sent) + [statement]
    {
      var effect := UpdateEffect(tables, t1, t2, key, setCols);
      if ValidTables(tables) { UpdateKeepsValid(tables, t1, t2, key, setCols); }
      tables := Applied(tables, effect);
      sent := sent + [statement];
      ok := effect.Ok?;
    }
  }
}
