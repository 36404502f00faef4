/**
 * What the store effects of merge, dedupe and join guarantee.
 */
module StoreLaws {
  import opened Outcomes
  import opened Store

  // ----- merge -----

  /** The number of rows over the sources, in list order. */
  function TotalRows(tables: Tables, sources: seq<string>): nat
    requires forall k :: 0 <= k < |sources| ==> sources[k] in tables
  {
    if |sources| == 0 then 0
    else TotalRows(tables, sources[..|sources| - 1]) + |tables[sources[|sources| - 1]].rows|
  }

  /** The cells of a row sequence, row by row; what survives a renumbering. */
  function CellsOf(rows: seq<Row>): (r: seq<map<string, Value>>)
    ensures |r| == |rows| && forall k :: 0 <= k < |rows| ==> r[k] == rows[k].cells
  {
    seq(|rows|, k requires 0 <= k < |rows| => rows[k].cells)
  }

  lemma {:induction false} ConcatRowsLength(tables: Tables, sources: seq<string>)
    requires forall k :: 0 <= k < |sources| ==> sources[k] in tables
    ensures |ConcatRows(tables, sources)| == TotalRows(tables, sources)
  {
    if |sources| > 0 {
      ConcatRowsLength(tables, sources[..|sources| - 1]);
    }
  }

  /** Concatenating the rows of two source lists is concatenating their row lists. */
  lemma {:induction false} ConcatRowsAppend(tables: Tables, xs: seq<string>, ys: seq<string>)
    requires forall k :: 0 <= k < |xs| ==> xs[k] in tables
    requires forall k :: 0 <= k < |ys| ==> ys[k] in tables
    ensures forall k :: 0 <= k < |xs + ys| ==> (xs + ys)[k] in tables
    ensures ConcatRows(tables, xs + ys) == ConcatRows(tables, xs) + ConcatRows(tables, ys)
  {
    assert forall k :: 0 <= k < |xs + ys| ==> (xs + ys)[k] in tables by {
      forall k | 0 <= k < |xs + ys| ensures (xs + ys)[k] in tables {
        if k >= |xs| { assert (xs + ys)[k] == ys[k - |xs|]; }
      }
    }
    if |ys| > 0 {
      var ys' := ys[..|ys| - 1];
      assert (xs + ys)[..|xs + ys| - 1] == xs + ys';
      ConcatRowsAppend(tables, xs, ys');
    } else {
      assert xs + ys == xs;
    }
  }

  /** The tables after `TRUNCATE <name>` and then the merge's `CREATE TABLE IF NOT EXISTS ... AS`. */
  function TruncateThenCreate(tables: Tables, name: string, sources: Option<seq<string>>): Tables {
    var truncated := Applied(tables, TruncateEffect(tables, name));
    Applied(truncated, CreateAsEffect(truncated, name, sources))
  }

  /**
   * Merging into a table that exists empties it and changes nothing else:
   * TRUNCATE clears it and the CREATE ... IF NOT EXISTS then does nothing.
   */
  lemma MergeIntoExistingEmpties(tables: Tables, name: string, sources: Option<seq<string>>)
    requires name in tables
    ensures TruncateThenCreate(tables, name, sources) == tables[name := Table(tables[name].columns, [])]
  {
  }

  /**
   * Merging into a fresh name creates it with the first source's columns and
   * the source rows in list order, as many as the sources hold together, with
   * distinct row ids; no other table changes.
   */
  lemma MergeIntoFresh(tables: Tables, name: string, sources: seq<string>)
    requires name !in tables && UnionCompatible(tables, sources)
    ensures var after := TruncateThenCreate(tables, name, Some(sources));
      && after.Keys == tables.Keys + {name}
      && (forall n :: n in tables ==> after[n] == tables[n])
      && after[name].columns == tables[sources[0]].columns
      && |after[name].rows| == TotalRows(tables, sources)
      && CellsOf(after[name].rows) == CellsOf(ConcatRows(tables, sources))
      && forall i, j :: 0 <= i < j < |after[name].rows| ==> after[name].rows[i].id != after[name].rows[j].id
  {
    ConcatRowsLength(tables, sources);
    var rows := TruncateThenCreate(tables, name, Some(sources))[name].rows;
    assert rows == Renumber(ConcatRows(tables, sources));
  }

  /** A merge whose union cannot run creates nothing. */
  lemma MergeRejectedCreatesNothing(tables: Tables, name: string, sources: Option<seq<string>>)
    requires name !in tables
    requires sources.None? || !UnionCompatible(tables, sources.value)
    ensures TruncateThenCreate(tables, name, sources) == tables
  {
  }

  // ----- dedupe -----

  /** The DELETE's predicate does not depend on which row is `a` and which `b`. */
  lemma NearDuplicatesSymmetric(a: Row, b: Row)
    ensures NearDuplicates(a, b) <==> NearDuplicates(b, a)
  {
  }

  /** The survivors and the deleted rows split the table: together they are its rows, counted with multiplicity. */
  lemma {:induction false} DedupePartition(xs: seq<Row>, all: seq<Row>)
    ensures |Survivors(xs, all)| + |Removed(xs, all)| == |xs|
    ensures multiset(Survivors(xs, all)) + multiset(Removed(xs, all)) == multiset(xs)
  {
    if |xs| > 0 {
      var init := xs[..|xs| - 1];
      DedupePartition(init, all);
      assert xs == init + [xs[|xs| - 1]];
    }
  }

  /** Both rows of a near-duplicate pair are deleted: no representative survives. */
  lemma PairBothDeleted(rows: seq<Row>, a: Row, b: Row)
    requires a in rows && b in rows && NearDuplicates(a, b)
    ensures a in Removed(rows, rows) && b in Removed(rows, rows)
    ensures a !in Survivors(rows, rows) && b !in Survivors(rows, rows)
  {
    NearDuplicatesSymmetric(a, b);
    assert HasTwin(a, rows);
    assert HasTwin(b, rows);
  }

  /** Rows without a near-duplicate all survive, in order. */
  lemma {:induction false} NoTwinsKeepsAll(xs: seq<Row>, all: seq<Row>)
    requires forall a :: a in xs ==> !HasTwin(a, all)
    ensures Survivors(xs, all) == xs && Removed(xs, all) == []
  {
    if |xs| > 0 {
      var init := xs[..|xs| - 1];
      assert forall a :: a in init ==> a in xs;
      NoTwinsKeepsAll(init, all);
      assert xs == init + [xs[|xs| - 1]];
    }
  }

  /** The survivors hold no near-duplicate pair, so running the DELETE again deletes nothing. */
  lemma DedupeIdempotent(rows: seq<Row>)
    ensures var s := Survivors(rows, rows); Survivors(s, s) == s && Removed(s, s) == []
  {
    var s := Survivors(rows, rows);
    assert forall b :: b in s ==> b in rows;
    NoTwinsKeepsAll(s, s);
  }

  /** The DELETE twice on the same table: the second one finds nothing and changes nothing. */
  lemma DeleteTwice(tables: Tables, name: string)
    requires name in tables
    ensures var after := DeleteEffect(tables, name).value.0;
      DeleteEffect(after, name) == Ok((after, []))
  {
    DedupeIdempotent(tables[name].rows);
    var after := DeleteEffect(tables, name).value.0;
    assert after[name := after[name]] == after;
  }

  /** Rows that differ only in event_type are still near-duplicates. */
  lemma EventTypeIgnored(a: Row, b: Row, v: Value)
    ensures NearDuplicates(Row(a.id, a.cells["event_type" := v]), b) == NearDuplicates(a, b)
  {
    var a' := Row(a.id, a.cells["event_type" := v]);
    assert forall c :: c != "event_type" ==> Field(a', c) == Field(a, c);
  }

  /** Two rows of the same purchase half a second apart: both are deleted, none survives. */
  lemma HalfSecondApartBothDeleted()
    ensures var cells := map["product_id" := Int(5), "price" := Float(1), "user_id" := Int(7),
                             "user_session" := Text("s"), "event_time" := Timestamp(0)];
      var a := Row(0, cells);
      var b := Row(1, cells["event_time" := Timestamp(500000)]);
      Survivors([a, b], [a, b]) == [] && Removed([a, b], [a, b]) == [a, b]
  {
    var cells := map["product_id" := Int(5), "price" := Float(1), "user_id" := Int(7),
                     "user_session" := Text("s"), "event_time" := Timestamp(0)];
    var a := Row(0, cells);
    var b := Row(1, cells["event_time" := Timestamp(500000)]);
    assert NearDuplicates(a, b) && NearDuplicates(b, a);
    assert HasTwin(a, [a, b]) && HasTwin(b, [a, b]);
    assert [a, b][..1] == [a];
  }

  // ----- join -----

  /**
   * Adding columns the table lacks, without repeats, appends them in order;
   * every row keeps its id and cells and reads NULL in each new column; no
   * other table changes.
   */
  lemma {:induction false} AddColumnsAppends(tables: Tables, table: string, cols: seq<string>)
    requires table in tables
    requires forall i, j :: 0 <= i < j < |cols| ==> cols[i] != cols[j]
    requires forall k :: 0 <= k < |cols| ==> cols[k] !in tables[table].columns
    ensures var after := AddColumnsEffect(tables, table, cols);
      && after.Keys == tables.Keys
      && (forall n :: n in tables && n != table ==> after[n] == tables[n])
      && after[table].columns == tables[table].columns + cols
      && |after[table].rows| == |tables[table].rows|
      && forall k :: 0 <= k < |tables[table].rows| ==>
        && after[table].rows[k].id == tables[table].rows[k].id
        && (forall c :: c in cols ==> Field(after[table].rows[k], c) == Null)
        && (forall c :: c !in cols ==> Field(after[table].rows[k], c) == Field(tables[table].rows[k], c))
  {
    if |cols| > 0 {
      var init := cols[..|cols| - 1];
      var last := cols[|cols| - 1];
      AddColumnsAppends(tables, table, init);
      var before := AddColumnsEffect(tables, table, init);
      assert cols == init + [last];
    }
  }

  /**
   * After the key-matched UPDATE, every row of table1 keeps its id and
   * position; a row with a match in table2 carries the match's value in every
   * SET column and its own elsewhere; a row without a match is unchanged.
   */
  lemma UpdateCopiesMatched(tables: Tables, t1: string, t2: string, key: string, setCols: seq<string>)
    requires UpdateEffect(tables, t1, t2, key, setCols).Ok?
    ensures var after := UpdateEffect(tables, t1, t2, key, setCols).value;
      var rows := tables[t1].rows;
      && after.Keys == tables.Keys
      && (forall n :: n in tables && n != t1 ==> after[n] == tables[n])
      && after[t1].columns == tables[t1].columns
      && |after[t1].rows| == |rows|
      && forall k :: 0 <= k < |rows| ==>
        var m := FirstMatch(tables[t2].rows, key, Field(rows[k], key));
        && after[t1].rows[k].id == rows[k].id
        && (m.None? ==> after[t1].rows[k] == rows[k])
        && (m.Some? ==> forall c :: c in setCols ==> Field(after[t1].rows[k], c) == Field(m.value, c))
        && (forall c :: c !in setCols ==> Field(after[t1].rows[k], c) == Field(rows[k], c))
  {
  }
}
