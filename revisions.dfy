/**
 * How the four revisions of the DatabaseModifier differ in their type maps:
 * all know the same nine columns; data-science-1/ex03 maps event_time to
 * DATETIME, data-science-0/ex04 to "timestamp NOT NULL", and
 * data-science-0/ex03 maps category_id to INTEGER instead of BIGINT.
 */
module Revisions {
  import Ddl
  import Store
  import WarehouseModifier
  import Ds1Modifier
  import Ds0Ex04Modifier
  import Ds0Ex03Database

  lemma SameColumns()
    ensures WarehouseModifier.Types.Keys == Ds1Modifier.Types.Keys == Ds0Ex04Modifier.Types.Keys
      == Ds0Ex03Database.Types.Keys == Ddl.KnownColumns
  {
    WarehouseModifier.TypesKnown();
    Ds1Modifier.TypesKnown();
    Ds0Ex04Modifier.TypesKnown();
    Ds0Ex03Database.TypesKnown();
  }

  lemma Ds1DiffersInEventTime()
    ensures Ds1Modifier.Types == WarehouseModifier.Types["event_time" := "DATETIME"]
  {
  }

  lemma Ds0Ex04DiffersInEventTime()
    ensures Ds0Ex04Modifier.Types == WarehouseModifier.Types["event_time" := "timestamp NOT NULL"]
  {
  }

  lemma Ds0Ex03DiffersInCategoryId()
    ensures Ds0Ex03Database.Types == WarehouseModifier.Types["category_id" := "INTEGER"]
  {
  }

  /** Every type the other revisions declare is one PostgreSQL accepts; data-science-1's DATETIME is not. */
  lemma OnlyDs1DeclaresRejectedType()
    ensures forall c :: c in WarehouseModifier.Types ==> WarehouseModifier.Types[c] in Store.SqlTypes
    ensures forall c :: c in Ds0Ex04Modifier.Types ==> Ds0Ex04Modifier.Types[c] in Store.SqlTypes
    ensures forall c :: c in Ds0Ex03Database.Types ==> Ds0Ex03Database.Types[c] in Store.SqlTypes
    ensures "event_time" in Ds1Modifier.Types && Ds1Modifier.Types["event_time"] !in Store.SqlTypes
  {
  }
}
