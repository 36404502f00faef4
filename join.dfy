/**
 * The column-list join both `join_tables` revisions share: the columns of
 * table2 that table1 lacks are added one ALTER at a time, typed by the
 * revision's map, then every table2 column but the key is copied over from
 * the key-matched table2 row.
 */
module Join {
  import opened Outcomes
  import opened Text
  import opened Ddl
  import opened Store
  import opened StoreLaws

  /** A table's column names are distinct, as PostgreSQL ensures. */
  predicate Distinct(cols: seq<string>) {
    forall i, j :: 0 <= i < j < |cols| ==> cols[i] != cols[j]
  }

  /** `[c for c in cols2 if c not in cols1]`. */
  function ColumnsToInsert(cols1: seq<string>, cols2: seq<string>): (r: seq<string>)
    ensures |r| <= |cols2|
    ensures forall c :: c in r <==> c in cols2 && c !in cols1
  {
    if |cols2| == 0 then []
    else
      var init := ColumnsToInsert(cols1, cols2[..|cols2| - 1]);
      var c := cols2[|cols2| - 1];
      if c in cols1 then init else init + [c]
  }

  /** The filter keeps table2's order: filtering a concatenation concatenates the filtered parts. */
  lemma {:induction false} ColumnsToInsertAppend(cols1: seq<string>, xs: seq<string>, ys: seq<string>)
    ensures ColumnsToInsert(cols1, xs + ys) == ColumnsToInsert(cols1, xs) + ColumnsToInsert(cols1, ys)
  {
    if |ys| == 0 {
      assert xs + ys == xs;
    } else {
      var ys' := ys[..|ys| - 1];
      assert (xs + ys)[..|xs + ys| - 1] == xs + ys';
      ColumnsToInsertAppend(cols1, xs, ys');
    }
  }

  /** Filtering distinct names gives distinct names. */
  lemma {:induction false} ColumnsToInsertDistinct(cols1: seq<string>, cols2: seq<string>)
    requires Distinct(cols2)
    ensures Distinct(ColumnsToInsert(cols1, cols2))
  {
    if |cols2| > 0 {
      var init := cols2[..|cols2| - 1];
      var c := cols2[|cols2| - 1];
      ColumnsToInsertDistinct(cols1, init);
      assert c !in init;
      assert c !in ColumnsToInsert(cols1, init);
    }
  }

  /** The position of the first `x` in `xs`. */
  function IndexOf(xs: seq<string>, x: string): (i: nat)
    requires x in xs
    ensures i < |xs| && xs[i] == x && x !in xs[..i]
  {
    if xs[0] == x then 0 else 1 + IndexOf(xs[1..], x)
  }

  /** `list.remove(x)`: drops the first `x`; None where Python raises ValueError. */
  function RemoveFirst(xs: seq<string>, x: string): (r: Option<seq<string>>)
    ensures r.None? <==> x !in xs
    ensures r.Some? ==> exists i :: 0 <= i < |xs| && xs[i] == x && x !in xs[..i] && r.value == xs[..i] + xs[i + 1..]
  {
    if x !in xs then None
    else
      var i := IndexOf(xs, x);
      Some(xs[..i] + xs[i + 1..])
  }

  /** With distinct names, the SET list is every table2 column except the key. */
  lemma RemoveFirstDistinct(xs: seq<string>, x: string)
    requires Distinct(xs) && x in xs
    ensures forall c :: c in RemoveFirst(xs, x).value <==> c in xs && c != x
  {
    var i :| 0 <= i < |xs| && xs[i] == x && x !in xs[..i] && RemoveFirst(xs, x).value == xs[..i] + xs[i + 1..];
    forall c ensures c in RemoveFirst(xs, x).value <==> c in xs && c != x {
      if c in xs && c != x {
        var j :| 0 <= j < |xs| && xs[j] == c;
        if j < i { assert xs[..i][j] == c; } else { assert xs[i + 1..][j - i - 1] == c; }
      }
      if c in xs[i + 1..] {
        var j :| 0 <= j < |xs[i + 1..]| && xs[i + 1..][j] == c;
        assert xs[i + 1 + j] == c;
      }
    }
  }

  /** The columns before the first one the type map lacks: the ALTERs that run before the KeyError. */
  function MappedPrefix(types: map<string, string>, cols: seq<string>): (r: seq<string>)
    ensures |r| <= |cols| && r == cols[..|r|]
    ensures forall k :: 0 <= k < |r| ==> r[k] in types
    ensures |r| < |cols| ==> cols[|r|] !in types
  {
    if |cols| == 0 || cols[0] !in types then []
    else [cols[0]] + MappedPrefix(types, cols[1..])
  }

  /** One `ALTER TABLE <table> ADD COLUMN <c> <type>;` per column. */
  function AlterStatements(types: map<string, string>, table: string, cols: seq<string>): (r: seq<string>)
    requires forall k :: 0 <= k < |cols| ==> cols[k] in types
    ensures |r| == |cols|
  {
    seq(|cols|, k requires 0 <= k < |cols| => AlterSql(table, cols[k], types[cols[k]]))
  }

  /**
   * The ALTER loop of `join_tables`: one statement per column in order; the
   * first column the map lacks stops it with that column's KeyError, after
   * the statements for the columns before it have run.
   */
  method AddMissingColumns(db: Store, types: map<string, string>, table: string, cols: seq<string>)
    returns (err: Option<Error>)
    modifies db
    ensures err == (if ColumnDefs(types, cols).Err? then Some(ColumnDefs(types, cols).error) else None)
    ensures db.tables == AddColumnsEffect(old(db.tables), table, MappedPrefix(types, cols))
    ensures db.sent == old(db.sent) + AlterStatements(types, table, MappedPrefix(types, cols))
  {
    for i := 0 to |cols|
      invariant forall k :: 0 <= k < i ==> cols[k] in types
      invariant db.tables == AddColumnsEffect(old(db.tables), table, cols[..i])
      invariant db.sent == old(db.sent) + AlterStatements(types, table, cols[..i])
    {
      var column := cols[i];
      assert cols[..i + 1][..i] == cols[..i];
      if column !in types {
        assert MappedPrefix(types, cols) == cols[..i];
        ColumnDefsPrefixErr(types, cols, i + 1);
        return Some(KeyError(column));
      }
      var query := AlterSql(table, column, types[column]);
      var accepted := db.AddColumn(query, table, column);  // a rejected ALTER does not stop the loop
      assert AlterStatements(types, table, cols[..i + 1]) == AlterStatements(types, table, cols[..i]) + [query];
    }
    assert cols[..|cols|] == cols;
    assert MappedPrefix(types, cols) == cols;
    return None;
  }

  /** The store, the statements sent and the exception an operation ends with. */
  datatype Outcome = Outcome(tables: Tables, sent: seq<string>, error: Option<Error>)

  /**
   * The join once both column lists are read and the user agreed. `raising`
   * says whether a rejected UPDATE surfaces as an exception (a connection that
   * raises) or is swallowed (one that catches ProgrammingError).
   */
  function JoinEffect(tables: Tables, types: map<string, string>, t1: string, t2: string, key: string,
                      raising: bool): Outcome
    requires t1 in tables && t2 in tables
  {
    var cols2 := tables[t2].columns;
    var inserted := ColumnsToInsert(tables[t1].columns, cols2);
    var added := MappedPrefix(types, inserted);
    var altered := AddColumnsEffect(tables, t1, added);
    var alters := AlterStatements(types, t1, added);
    var defs := ColumnDefs(types, inserted);
    if defs.Err? then Outcome(altered, alters, Some(defs.error))
    else match RemoveFirst(cols2, key)
      case None => Outcome(altered, alters, Some(ValueError))
      case Some(setCols) =>
        var update := UpdateEffect(altered, t1, t2, key, setCols);
        Outcome(Applied(altered, update), alters + [UpdateSql(t1, t2, key, setCols)],
                if update.Err? && raising then Some(StoreError) else None)
  }

  /** `join_tables` from reading the column lists on: the ALTER loop, `.remove(key)`, the UPDATE. */
  method Run(db: Store, types: map<string, string>, t1: string, t2: string, key: string, raising: bool)
    returns (err: Option<Error>)
    requires t1 in db.tables && t2 in db.tables
    modifies db
    ensures var o := JoinEffect(old(db.tables), types, t1, t2, key, raising);
      db.tables == o.tables && db.sent == old(db.sent) + o.sent && err == o.error
  {
    var listOfColumnsT1 := db.tables[t1].columns;
    var listOfColumnsT2 := db.tables[t2].columns;
    var inserted := ColumnsToInsert(listOfColumnsT1, listOfColumnsT2);
    err := AddMissingColumns(db, types, t1, inserted);
    if err.Some? {
      return;
    }
    match RemoveFirst(listOfColumnsT2, key) {
      case None =>
        return Some(ValueError);
      case Some(rest) =>
        listOfColumnsT2 := rest;
    }
    var query := UpdateSql(t1, t2, key, listOfColumnsT2);
    var accepted := db.UpdateFrom(query, t1, t2, key, listOfColumnsT2);
    if !accepted && raising {
      err := Some(StoreError);
    }
  }

  /**
   * A column the map lacks stops the join with its KeyError: the ALTERs for
   * the columns before it stay, and no UPDATE is sent.
   */
  lemma JoinStopsAtUnmapped(tables: Tables, types: map<string, string>, t1: string, t2: string, key: string,
                            raising: bool)
    requires t1 in tables && t2 in tables
    requires ColumnDefs(types, ColumnsToInsert(tables[t1].columns, tables[t2].columns)).Err?
    ensures var inserted := ColumnsToInsert(tables[t1].columns, tables[t2].columns);
      var o := JoinEffect(tables, types, t1, t2, key, raising);
      && (exists j :: FirstUnmapped(types, inserted, j) && o.error == Some(KeyError(inserted[j])))
      && o.sent == AlterStatements(types, t1, MappedPrefix(types, inserted))
      && |o.sent| < |inserted|
  {
  }

  /**
   * A key that table2 lacks fails `.remove` with ValueError after every
   * ALTER has run; no UPDATE is sent.
   */
  lemma JoinMissingKey(tables: Tables, types: map<string, string>, t1: string, t2: string, key: string,
                       raising: bool)
    requires t1 in tables && t2 in tables && key !in tables[t2].columns
    requires ColumnDefs(types, ColumnsToInsert(tables[t1].columns, tables[t2].columns)).Ok?
    ensures var inserted := ColumnsToInsert(tables[t1].columns, tables[t2].columns);
      var o := JoinEffect(tables, types, t1, t2, key, raising);
      && o.error == Some(ValueError)
      && o.tables == AddColumnsEffect(tables, t1, inserted)
      && o.sent == AlterStatements(types, t1, inserted)
  {
    var inserted := ColumnsToInsert(tables[t1].columns, tables[t2].columns);
    assert MappedPrefix(types, inserted) == inserted;
  }

  /**
   * Row `r` is row `r0` of table1 after the join, where `m` is its key match
   * in table2: it keeps its id; with a match it carries the match's value in
   * every table2 column; without one it reads NULL in the added columns; and
   * every other column keeps its old value.
   */
  ghost predicate JoinedRow(r0: Row, r: Row, m: Option<Row>, cols2: seq<string>, inserted: seq<string>) {
    && r.id == r0.id
    && (m.Some? ==> forall c :: c in cols2 ==> Field(r, c) == Field(m.value, c))
    && (m.None? ==> forall c :: c in inserted ==> Field(r, c) == Null)
    && (forall c :: c !in inserted && (m.None? || c !in cols2) ==> Field(r, c) == Field(r0, c))
  }

  /** Row `ra` is row `r0` after the ALTERs: same id, NULL in the added columns, the rest unchanged. */
  ghost predicate AlteredRow(r0: Row, ra: Row, inserted: seq<string>) {
    && ra.id == r0.id
    && (forall c :: c in inserted ==> Field(ra, c) == Null)
    && (forall c :: c !in inserted ==> Field(ra, c) == Field(r0, c))
  }

  /** One row through the ALTERs and the UPDATE, column by column. */
  lemma UpdatedRowFields(r0: Row, ra: Row, m: Option<Row>, inserted: seq<string>, cols2: seq<string>,
                         setCols: seq<string>, key: string)
    requires AlteredRow(r0, ra, inserted)
    requires forall c :: c in setCols <==> c in cols2 && c != key
    requires key !in inserted && forall c :: c in inserted ==> c in cols2
    requires m.Some? ==> SqlEq(Field(m.value, key), Field(r0, key))
    ensures JoinedRow(r0, UpdatedRow(ra, m, setCols), m, cols2, inserted)
  {
  }

  /**
   * The join on two distinct tables with distinct column names, a key both
   * hold and at least one other table2 column, all types known: table1 gains
   * the missing table2 columns in table2 order; a row with a key match in
   * table2 carries that match's value in every table2 column (shared ones
   * overwritten), a row without one reads NULL in the new columns; columns
   * only table1 has are untouched; and nothing is raised.
   */
  lemma JoinFillsMatchedRows(tables: Tables, types: map<string, string>, t1: string, t2: string, key: string,
                             raising: bool)
    requires t1 in tables && t2 in tables && t1 != t2
    requires Distinct(tables[t1].columns) && Distinct(tables[t2].columns)
    requires key in tables[t1].columns && key in tables[t2].columns && |tables[t2].columns| > 1
    requires ColumnDefs(types, ColumnsToInsert(tables[t1].columns, tables[t2].columns)).Ok?
    ensures var cols2 := tables[t2].columns;
      var inserted := ColumnsToInsert(tables[t1].columns, cols2);
      var rows := tables[t1].rows;
      var o := JoinEffect(tables, types, t1, t2, key, raising);
      && o.error == None
      && o.sent == AlterStatements(types, t1, inserted) + [UpdateSql(t1, t2, key, RemoveFirst(cols2, key).value)]
      && o.tables.Keys == tables.Keys
      && o.tables[t1].columns == tables[t1].columns + inserted
      && |o.tables[t1].rows| == |rows|
      && forall k :: 0 <= k < |rows| ==>
        JoinedRow(rows[k], o.tables[t1].rows[k], FirstMatch(tables[t2].rows, key, Field(rows[k], key)), cols2, inserted)
  {
    var cols1 := tables[t1].columns;
    var cols2 := tables[t2].columns;
    var inserted := ColumnsToInsert(cols1, cols2);
    assert MappedPrefix(types, inserted) == inserted;
    var altered := AddColumnsEffect(tables, t1, inserted);
    JoinAltered(tables, t1, cols2);
    var setCols := RemoveFirst(cols2, key).value;
    SetColumns(cols2, key);
    JoinUpdated(tables, altered, t1, t2, key, setCols, inserted);
  }

  /** The ALTERs of the join: table1 gains the inserted columns, and every row NULLs in them. */
  lemma JoinAltered(tables: Tables, t1: string, cols2: seq<string>)
    requires t1 in tables && Distinct(cols2)
    ensures var inserted := ColumnsToInsert(tables[t1].columns, cols2);
      var altered := AddColumnsEffect(tables, t1, inserted);
      && altered.Keys == tables.Keys && (forall t :: t in tables && t != t1 ==> altered[t] == tables[t])
      && altered[t1].columns == tables[t1].columns + inserted && |altered[t1].rows| == |tables[t1].rows|
      && forall k :: 0 <= k < |tables[t1].rows| ==> AlteredRow(tables[t1].rows[k], altered[t1].rows[k], inserted)
  {
    var inserted := ColumnsToInsert(tables[t1].columns, cols2);
    ColumnsToInsertDistinct(tables[t1].columns, cols2);
    AddColumnsAppends(tables, t1, inserted);
  }

  /** The SET list: table2's columns without the key, and not empty when there is another column. */
  lemma SetColumns(cols2: seq<string>, key: string)
    requires Distinct(cols2) && key in cols2 && |cols2| > 1
    ensures var setCols := RemoveFirst(cols2, key).value;
      (forall c :: c in setCols <==> c in cols2 && c != key) && |setCols| > 0
  {
    var setCols := RemoveFirst(cols2, key).value;
    RemoveFirstDistinct(cols2, key);
    if cols2[0] == key { assert cols2[1] in setCols; } else { assert cols2[0] in setCols; }
  }

  /** The UPDATE after the ALTERs: every row of table1 is joined with its first match. */
  lemma JoinUpdated(tables: Tables, altered: Tables, t1: string, t2: string, key: string,
                    setCols: seq<string>, inserted: seq<string>)
    requires t1 in tables && t2 in tables && t1 != t2
    requires altered.Keys == tables.Keys && altered[t2] == tables[t2]
    requires altered[t1].columns == tables[t1].columns + inserted && |altered[t1].rows| == |tables[t1].rows|
    requires forall k :: 0 <= k < |tables[t1].rows| ==> AlteredRow(tables[t1].rows[k], altered[t1].rows[k], inserted)
    requires inserted == ColumnsToInsert(tables[t1].columns, tables[t2].columns)
    requires key in tables[t1].columns && key in tables[t2].columns
    requires (forall c :: c in setCols <==> c in tables[t2].columns && c != key) && |setCols| > 0
    ensures UpdateEffect(altered, t1, t2, key, setCols).Ok?
    ensures var after := UpdateEffect(altered, t1, t2, key, setCols).value;
      var rows := tables[t1].rows;
      && after.Keys == tables.Keys
      && after[t1].columns == tables[t1].columns + inserted
      && |after[t1].rows| == |rows|
      && forall k :: 0 <= k < |rows| ==>
        JoinedRow(rows[k], after[t1].rows[k], FirstMatch(tables[t2].rows, key, Field(rows[k], key)), tables[t2].columns, inserted)
  {
    var rows := tables[t1].rows;
    var cols2 := tables[t2].columns;
    assert UpdateRuns(altered, t1, t2, key, setCols);
    var after := UpdateEffect(altered, t1, t2, key, setCols).value;
    forall k | 0 <= k < |rows|
      ensures JoinedRow(rows[k], after[t1].rows[k], FirstMatch(tables[t2].rows, key, Field(rows[k], key)), cols2, inserted)
    {
      assert key !in inserted;
      UpdatedRowFields(rows[k], altered[t1].rows[k], FirstMatch(tables[t2].rows, key, Field(rows[k], key)),
                       inserted, cols2, setCols, key);
    }
    assert after.Keys == tables.Keys by {
      assert after == altered[t1 := after[t1]];
      SameKeys(altered, t1, after[t1]);
    }
  }

  /** Overwriting an existing key keeps the key set. */
  lemma SameKeys(m: Tables, k: string, v: Table)
    requires k in m
    ensures m[k := v].Keys == m.Keys
  {
  }
}
