/** Tables, their relations and the index of incoming relations, as in
    clients/typescript/src/client/model/schema.ts. */
module Schema {
  import opened Types

  type TableName = string
  type FieldName = string
  type RelationName = string

  datatype Arity = One | Many

  datatype Relation = Relation(
    relationField: FieldName, fromField: FieldName, toField: FieldName,
    relatedTable: TableName, relationName: RelationName, relatedObjects: Arity)
  {
    predicate IsIncoming() {
      fromField == "" && toField == ""
    }
  }

  datatype TableSchema = TableSchema(fields: seq<FieldName>, relations: seq<Relation>)

  type Tables = map<TableName, TableSchema>

  function Relations(tables: Tables, table: TableName): seq<Relation> {
    if table in tables then tables[table].relations else []
  }

  /** The first relation of that name. */
  function Find(rs: seq<Relation>, name: RelationName): (r: Option<Relation>)
    ensures r.Some? ==> r.value in rs && r.value.relationName == name
    ensures r.None? ==> forall x :: x in rs ==> x.relationName != name
  {
    if rs == [] then None
    else if rs[0].relationName == name then Some(rs[0])
    else Find(rs[1..], name)
  }

  function GetRelation(tables: Tables, table: TableName, name: RelationName): Option<Relation> {
    Find(Relations(tables, table), name)
  }

  function Opposite(tables: Tables, r: Relation): Option<Relation> {
    GetRelation(tables, r.relatedTable, r.relationName)
  }

  /** Every incoming relation has its outgoing side, which holds the two fields. */
  predicate HasOpposites(tables: Tables, rs: seq<Relation>) {
    forall r :: r in rs && r.IsIncoming() ==> Opposite(tables, r).Some?
  }

  function Incoming(rs: seq<Relation>): seq<Relation> {
    if rs == [] then []
    else Incoming(rs[..|rs| - 1]) + if rs[|rs| - 1].IsIncoming() then [rs[|rs| - 1]] else []
  }

  function Outgoing(rs: seq<Relation>): seq<Relation> {
    if rs == [] then []
    else Outgoing(rs[..|rs| - 1]) + if rs[|rs| - 1].IsIncoming() then [] else [rs[|rs| - 1]]
  }

  method Partition(rs: seq<Relation>) returns (incoming: seq<Relation>, outgoing: seq<Relation>)
    ensures incoming == Incoming(rs) && outgoing == Outgoing(rs)
  {
    incoming, outgoing := [], [];
    for i := 0 to |rs|
      invariant incoming == Incoming(rs[..i]) && outgoing == Outgoing(rs[..i])
    {
      assert rs[..i + 1][..i] == rs[..i];
      if rs[i].IsIncoming() {
        incoming := incoming + [rs[i]];
      } else {
        outgoing := outgoing + [rs[i]];
      }
    }
    assert rs[..|rs|] == rs;
  }

  /** The two parts hold all relations, each as often as before. */
  lemma {:induction false} PartitionLosesNothing(rs: seq<Relation>)
    ensures multiset(Incoming(rs)) + multiset(Outgoing(rs)) == multiset(rs)
  {
    if rs != [] {
      var front, last := rs[..|rs| - 1], rs[|rs| - 1];
      PartitionLosesNothing(front);
      assert multiset(rs) == multiset(front) + multiset{last} by { assert rs == front + [last]; }
      assert last.IsIncoming() ==> multiset(Incoming(rs)) == multiset(Incoming(front)) + multiset{last};
      assert !last.IsIncoming() ==> multiset(Outgoing(rs)) == multiset(Outgoing(front)) + multiset{last};
    }
  }

  lemma {:induction false} PartitionKeeps(rs: seq<Relation>, r: Relation)
    ensures r in Incoming(rs) <==> r in rs && r.IsIncoming()
    ensures r in Outgoing(rs) <==> r in rs && !r.IsIncoming()
  {
    if rs != [] {
      PartitionKeeps(rs[..|rs| - 1], r);
      assert rs == rs[..|rs| - 1] + [rs[|rs| - 1]];
    }
  }

  // ---- The index ----

  /** The incoming relations that point at this field, in the order of the schema. */
  function PointingAt(tables: Tables, rs: seq<Relation>, field: FieldName): seq<Relation> {
    if rs == [] then []
    else
      var r := rs[|rs| - 1];
      PointingAt(tables, rs[..|rs| - 1], field) +
      if r.IsIncoming() && Opposite(tables, r).Some? && Opposite(tables, r).value.toField == field then [r] else []
  }

  lemma {:induction false} PointingAtIsFilter(tables: Tables, rs: seq<Relation>, field: FieldName, r: Relation)
    ensures r in PointingAt(tables, rs, field) <==>
            r in rs && r.IsIncoming() && Opposite(tables, r).Some? && Opposite(tables, r).value.toField == field
  {
    if rs != [] {
      PointingAtIsFilter(tables, rs[..|rs| - 1], field, r);
      assert rs == rs[..|rs| - 1] + [rs[|rs| - 1]];
    }
  }

  type RelationIndex = map<FieldName, seq<Relation>>

  function Lookup(index: RelationIndex, field: FieldName): seq<Relation> {
    if field in index then index[field] else []
  }

  lemma {:induction false} PointingAtSkipsOutgoing(tables: Tables, rs: seq<Relation>, field: FieldName)
    ensures PointingAt(tables, Incoming(rs), field) == PointingAt(tables, rs, field)
  {
    if rs != [] {
      var front, r := rs[..|rs| - 1], rs[|rs| - 1];
      PointingAtSkipsOutgoing(tables, front, field);
      if r.IsIncoming() {
        assert (Incoming(front) + [r])[..|Incoming(front)|] == Incoming(front);
      } else {
        assert Incoming(front) + [] == Incoming(front);
      }
    }
  }

  /** The index answers for each field what a filter over the relations would. */
  ghost predicate Indexes(index: RelationIndex, tables: Tables, rs: seq<Relation>) {
    forall field :: Lookup(index, field) == PointingAt(tables, rs, field)
  }

  predicate AllIncoming(tables: Tables, rs: seq<Relation>) {
    forall i :: 0 <= i < |rs| ==> rs[i].IsIncoming() && Opposite(tables, rs[i]).Some?
  }

  /** Grouping by the field that the other side of each relation names. */
  function GroupBy(tables: Tables, rs: seq<Relation>): RelationIndex
    requires AllIncoming(tables, rs)
  {
    if rs == [] then map[]
    else
      var index := GroupBy(tables, rs[..|rs| - 1]);
      var toField := Opposite(tables, rs[|rs| - 1]).value.toField;
      index[toField := Lookup(index, toField) + [rs[|rs| - 1]]]
  }

  lemma {:induction false} GroupsAreFilters(tables: Tables, rs: seq<Relation>, field: FieldName)
    requires AllIncoming(tables, rs)
    ensures Lookup(GroupBy(tables, rs), field) == PointingAt(tables, rs, field)
  {
    if rs != [] {
      var front, r := rs[..|rs| - 1], rs[|rs| - 1];
      GroupsAreFilters(tables, front, field);
      assert PointingAt(tables, front, field) + [] == PointingAt(tables, front, field);
    }
  }

  method GroupByToField(tables: Tables, rs: seq<Relation>) returns (index: RelationIndex)
    requires AllIncoming(tables, rs)
    ensures index == GroupBy(tables, rs)
  {
    index := map[];
    for i := 0 to |rs|
      invariant index == GroupBy(tables, rs[..i])
    {
      assert rs[..i + 1][..i] == rs[..i];
      var toField := Opposite(tables, rs[i]).value.toField;
      index := index[toField := Lookup(index, toField) + [rs[i]]];
    }
    assert rs[..|rs|] == rs;
  }

  lemma IncomingHasOpposites(tables: Tables, rs: seq<Relation>)
    requires HasOpposites(tables, rs)
    ensures AllIncoming(tables, Incoming(rs))
  {
    var incoming := Incoming(rs);
    forall i | 0 <= i < |incoming| ensures incoming[i].IsIncoming() && Opposite(tables, incoming[i]).Some? {
      PartitionKeeps(rs, incoming[i]);
    }
  }

  /** Groups the incoming relations of one table by the field they point at. */
  method BuildRelationIndex(tables: Tables, rs: seq<Relation>) returns (index: RelationIndex)
    requires HasOpposites(tables, rs)
    ensures Indexes(index, tables, rs)
  {
    var inRelations, _ := Partition(rs);
    IncomingHasOpposites(tables, rs);
    index := GroupByToField(tables, inRelations);
    forall field ensures Lookup(index, field) == PointingAt(tables, rs, field) {
      GroupsAreFilters(tables, inRelations, field);
      PointingAtSkipsOutgoing(tables, rs, field);
    }
  }

  type DbIndex = map<TableName, RelationIndex>

  ghost predicate IndexesTable(index: DbIndex, tables: Tables, table: TableName) {
    table in index && Indexes(index[table], tables, Relations(tables, table))
  }

  class DbSchema {
    const tables: Tables
    var incomingRelationsIndex: DbIndex

    ghost predicate Valid()
      reads this
    {
      forall table :: table in tables ==> IndexesTable(incomingRelationsIndex, tables, table)
    }

    constructor (tables: Tables)
      requires forall table :: table in tables ==> HasOpposites(tables, tables[table].relations)
      ensures Valid() && this.tables == tables
    {
      this.tables := tables;
      incomingRelationsIndex := map[];
      new;
      var todo := tables.Keys;
      while todo != {}
        invariant todo <= tables.Keys
        invariant forall table :: table in tables && table !in todo ==>
          IndexesTable(incomingRelationsIndex, tables, table)
        decreases todo
      {
        var table :| table in todo;
        todo := todo - {table};
        var index := BuildRelationIndex(tables, tables[table].relations);
        ghost var was := incomingRelationsIndex;
        incomingRelationsIndex := incomingRelationsIndex[table := index];
        forall t | t in tables && t !in todo ensures IndexesTable(incomingRelationsIndex, tables, t) {
          assert t != table ==> IndexesTable(was, tables, t);
        }
      }
    }

    /** The index answers what a filter over all relations of the table would. */
    method GetRelationsPointingAtField(table: TableName, field: FieldName) returns (rs: seq<Relation>)
      requires Valid() && table in tables
      ensures rs == PointingAt(tables, Relations(tables, table), field)
    {
      assert IndexesTable(incomingRelationsIndex, tables, table);
      rs := Lookup(incomingRelationsIndex[table], field);
    }
  }
}
