/** Updating a row and the foreign keys that point at it, as in
    clients/typescript/src/client/model/table.ts. */
module ForeignKeys {
  import opened Types
  import opened Schema
  import opened Relational

  type Rel = Schema.Relation

  /** A column of foreign keys, and the field of the updated table that it points at. */
  datatype Edge = Edge(table: TableName, fromField: FieldName, toField: FieldName)

  /** The fields whose value differs after the update. */
  function Changed(fields: seq<FieldName>, original: Row, updated: Row): seq<FieldName> {
    if fields == [] then []
    else
      var f := fields[|fields| - 1];
      Changed(fields[..|fields| - 1], original, updated) + if Get(original, f) == Get(updated, f) then [] else [f]
  }

  lemma {:induction false} ChangedIsDiff(fields: seq<FieldName>, original: Row, updated: Row, f: FieldName)
    ensures f in Changed(fields, original, updated) <==> f in fields && Get(original, f) != Get(updated, f)
  {
    if fields != [] {
      ChangedIsDiff(fields[..|fields| - 1], original, updated, f);
      assert fields == fields[..|fields| - 1] + [fields[|fields| - 1]];
    }
  }

  function EdgeOf(s: Tables, r: Rel): Edge
    requires Opposite(s, r).Some?
  {
    Edge(r.relatedTable, Opposite(s, r).value.fromField, Opposite(s, r).value.toField)
  }

  /** The columns that the relations of a list stand for. */
  function EdgesOf(s: Tables, rs: seq<Rel>): seq<Edge> {
    if rs == [] then []
    else EdgesOf(s, rs[..|rs| - 1]) + if Opposite(s, rs[|rs| - 1]).Some? then [EdgeOf(s, rs[|rs| - 1])] else []
  }

  function Edges(s: Tables, table: TableName, fields: seq<FieldName>): seq<Edge> {
    if fields == [] then []
    else
      Edges(s, table, fields[..|fields| - 1]) +
      EdgesOf(s, PointingAt(s, Relations(s, table), fields[|fields| - 1]))
  }

  function Follow(db: Db, e: Edge, original: Row, updated: Row): Db {
    UpdateMany(db, e.table, map[e.fromField := Get(original, e.toField)], map[e.fromField := Get(updated, e.toField)])
  }

  function FollowAll(db: Db, edges: seq<Edge>, original: Row, updated: Row): Db {
    if edges == [] then db
    else Follow(FollowAll(db, edges[..|edges| - 1], original, updated), edges[|edges| - 1], original, updated)
  }

  lemma {:induction false} FollowAppends(db: Db, a: seq<Edge>, b: seq<Edge>, original: Row, updated: Row)
    ensures FollowAll(db, a + b, original, updated) ==
            FollowAll(FollowAll(db, a, original, updated), b, original, updated)
  {
    if b == [] {
      assert a + b == a;
    } else {
      assert (a + b)[..|a + b| - 1] == a + b[..|b| - 1];
      FollowAppends(db, a, b[..|b| - 1], original, updated);
    }
  }

  /** The one row that the query finds is updated, the keys that pointed at it follow, and the updated
      row must be found again by what was asked for.  None stands for an error. */
  function Updating(s: Tables, db: Db, table: TableName, where: Row, data: Row): Option<Db>
    requires table in s
  {
    var found := Matching(RowsOf(db, table), where);
    if |found| != 1 then None
    else
      var original, updated := found[0], found[0] + data;
      var edges := Edges(s, table, Changed(s[table].fields, original, updated));
      var after := FollowAll(UpdateMany(db, table, where, data), edges, original, updated);
      if |Matching(RowsOf(after, table), where + data)| == 1 then Some(after) else None
  }

  // ---- The object ----

  class Store {
    var db: Db
    const schema: DbSchema

    constructor (db: Db, schema: DbSchema)
      ensures this.db == db && this.schema == schema
    {
      this.db, this.schema := db, schema;
    }

    method FollowRelations(rs: seq<Rel>, toField: FieldName, original: Row, updated: Row)
      requires forall r :: r in rs ==>
        Opposite(schema.tables, r).Some? && Opposite(schema.tables, r).value.toField == toField
      modifies `db
      ensures db == FollowAll(old(db), EdgesOf(schema.tables, rs), original, updated)
    {
      for i := 0 to |rs|
        invariant db == FollowAll(old(db), EdgesOf(schema.tables, rs[..i]), original, updated)
      {
        var relation := rs[i];
        assert relation in rs;
        var fromField := Opposite(schema.tables, relation).value.fromField;
        FollowRelation(schema.tables, old(db), rs, i, original, updated);
        db := UpdateMany(db, relation.relatedTable,
                         map[fromField := Get(original, toField)], map[fromField := Get(updated, toField)]);
      }
      assert rs[..|rs|] == rs;
    }

    method UpdateFKs(table: TableName, original: Row, updated: Row)
      requires schema.Valid() && table in schema.tables
      modifies `db
      ensures db == FollowAll(old(db),
              Edges(schema.tables, table, Changed(schema.tables[table].fields, original, updated)), original, updated)
    {
      var fields := Changed(schema.tables[table].fields, original, updated);
      for i := 0 to |fields|
        invariant db == FollowAll(old(db), Edges(schema.tables, table, fields[..i]), original, updated)
      {
        var incomingRelations := schema.GetRelationsPointingAtField(table, fields[i]);
        PointersNameTheField(schema.tables, table, fields[i]);
        FollowField(schema.tables, old(db), table, fields, i, original, updated);
        FollowRelations(incomingRelations, fields[i], original, updated);
      }
      assert fields[..|fields|] == fields;
    }

    method Update(table: TableName, where: Row, data: Row) returns (ok: bool)
      requires schema.Valid() && table in schema.tables
      modifies `db
      ensures ok <==> Updating(schema.tables, old(db), table, where, data).Some?
      ensures ok ==> db == Updating(schema.tables, old(db), table, where, data).value
      ensures |Matching(RowsOf(old(db), table), where)| != 1 ==> db == old(db)
    {
      var found := Matching(RowsOf(db, table), where);
      if |found| != 1 {
        return false;
      }
      db := UpdateMany(db, table, where, data);
      UpdateFKs(table, found[0], found[0] + data);
      ok := |Matching(RowsOf(db, table), where + data)| == 1;
    }
  }

  lemma PointersNameTheField(s: Tables, table: TableName, field: FieldName)
    ensures forall r :: r in PointingAt(s, Relations(s, table), field) ==>
              Opposite(s, r).Some? && Opposite(s, r).value.toField == field
  {
    forall r | r in PointingAt(s, Relations(s, table), field)
      ensures Opposite(s, r).Some? && Opposite(s, r).value.toField == field
    {
      PointingAtIsFilter(s, Relations(s, table), field, r);
    }
  }

  lemma FollowField(s: Tables, db: Db, table: TableName, fields: seq<FieldName>, i: nat, original: Row, updated: Row)
    requires i < |fields|
    ensures FollowAll(db, Edges(s, table, fields[..i + 1]), original, updated) ==
            FollowAll(FollowAll(db, Edges(s, table, fields[..i]), original, updated),
                      EdgesOf(s, PointingAt(s, Relations(s, table), fields[i])), original, updated)
  {
    assert fields[..i + 1][..i] == fields[..i];
    FollowAppends(db, Edges(s, table, fields[..i]), EdgesOf(s, PointingAt(s, Relations(s, table), fields[i])),
      original, updated);
  }

  lemma EdgesOneMore(s: Tables, rs: seq<Rel>, i: nat)
    requires i < |rs| && Opposite(s, rs[i]).Some?
    ensures EdgesOf(s, rs[..i + 1]) == EdgesOf(s, rs[..i]) + [EdgeOf(s, rs[i])]
  {
    assert rs[..i + 1][..i] == rs[..i];
  }

  lemma FollowOneMore(db: Db, edges: seq<Edge>, e: Edge, original: Row, updated: Row)
    ensures FollowAll(db, edges + [e], original, updated) ==
            Follow(FollowAll(db, edges, original, updated), e, original, updated)
  {
    assert (edges + [e])[..|edges|] == edges;
  }

  lemma FollowRelation(s: Tables, db: Db, rs: seq<Rel>, i: nat, original: Row, updated: Row)
    requires i < |rs| && Opposite(s, rs[i]).Some?
    ensures FollowAll(db, EdgesOf(s, rs[..i + 1]), original, updated) ==
            Follow(FollowAll(db, EdgesOf(s, rs[..i]), original, updated), EdgeOf(s, rs[i]), original, updated)
  {
    EdgesOneMore(s, rs, i);
    FollowOneMore(db, EdgesOf(s, rs[..i]), EdgeOf(s, rs[i]), original, updated);
  }

  // ---- What happens to one value ----

  /** What the edges make of a value in this column. */
  function Moved(edges: seq<Edge>, table: TableName, f: FieldName, v: SqlValue, original: Row, updated: Row): SqlValue {
    if edges == [] then v
    else
      var e := edges[|edges| - 1];
      var w := Moved(edges[..|edges| - 1], table, f, v, original, updated);
      if e.table == table && e.fromField == f && w == Get(original, e.toField) then Get(updated, e.toField) else w
  }

  /** Following the edges moves each value on its own and neither adds nor removes rows. */
  lemma {:induction false} EveryCellMoves(db: Db, edges: seq<Edge>, original: Row, updated: Row, table: TableName,
        i: nat, f: FieldName)
    requires i < |RowsOf(db, table)|
    ensures var after := RowsOf(FollowAll(db, edges, original, updated), table);
      |after| == |RowsOf(db, table)| &&
        Get(after[i], f) == Moved(edges, table, f, Get(RowsOf(db, table)[i], f), original, updated)
  {
    if edges != [] {
      EveryCellMoves(db, edges[..|edges| - 1], original, updated, table, i, f);
      var before, e := FollowAll(db, edges[..|edges| - 1], original, updated), edges[|edges| - 1];
      CellFollows(before, e, original, updated, table, i, f);
    }
  }

  lemma CellFollows(db: Db, e: Edge, original: Row, updated: Row, table: TableName, i: nat, f: FieldName)
    requires i < |RowsOf(db, table)|
    ensures var rows := RowsOf(Follow(db, e, original, updated), table);
      |rows| == |RowsOf(db, table)| &&
      Get(rows[i], f) ==
      if e.table == table && e.fromField == f && Get(RowsOf(db, table)[i], f) == Get(original, e.toField)
      then Get(updated, e.toField) else Get(RowsOf(db, table)[i], f)
  {
    var where := map[e.fromField := Get(original, e.toField)];
    if e.table == table {
      assert Matches(db[table][i], where) <==> Get(db[table][i], e.fromField) == Get(original, e.toField);
    }
  }

  lemma {:induction false} OtherColumnsStay(edges: seq<Edge>, table: TableName, f: FieldName, v: SqlValue,
        original: Row, updated: Row)
    requires forall e :: e in edges ==> !(e.table == table && e.fromField == f)
    ensures Moved(edges, table, f, v, original, updated) == v
  {
    if edges != [] {
      assert edges[|edges| - 1] in edges;
      OtherColumnsStay(edges[..|edges| - 1], table, f, v, original, updated);
    }
  }

  /** A column with one edge: exactly the old value is replaced by the new one. */
  lemma {:induction false} OneEdgeMoves(edges: seq<Edge>, e: Edge, v: SqlValue, original: Row, updated: Row)
    requires e in edges && Get(original, e.toField) != Get(updated, e.toField)
    requires forall x :: x in edges && x.table == e.table && x.fromField == e.fromField ==> x == e
    ensures Moved(edges, e.table, e.fromField, v, original, updated) ==
            if v == Get(original, e.toField) then Get(updated, e.toField) else v
  {
    var front, last := edges[..|edges| - 1], edges[|edges| - 1];
    assert last in edges;
    if e in front {
      OneEdgeMoves(front, e, v, original, updated);
    } else {
      assert e == last;
      assert forall x :: x in front ==> x in edges;
      OtherColumnsStay(front, e.table, e.fromField, v, original, updated);
    }
  }

  /** Only keys that name the updated row move, exactly when the old value is not null: the query for a
      null matches every key that names nothing. */
  lemma OnlyPointersMoveExactlyWhen(edges: seq<Edge>, e: Edge, original: Row, updated: Row)
    requires e in edges && Get(original, e.toField) != Get(updated, e.toField)
    requires forall x :: x in edges && x.table == e.table && x.fromField == e.fromField ==> x == e
    ensures (forall v: SqlValue :: Moved(edges, e.table, e.fromField, v, original, updated) != v ==>
              v != Null && v == Get(original, e.toField)) <==>
            Get(original, e.toField) != Null
  {
    forall v: SqlValue
      ensures Moved(edges, e.table, e.fromField, v, original, updated) ==
              if v == Get(original, e.toField) then Get(updated, e.toField) else v
    {
      OneEdgeMoves(edges, e, v, original, updated);
    }
    if Get(original, e.toField) == Null {
      assert Moved(edges, e.table, e.fromField, Null, original, updated) != Null;
    }
  }

  /** A key that names nothing is made to name the row whose null field was filled. */
  lemma NullKeysAreMoved(original: Row, updated: Row)
    requires original == map["id" := Null] && updated == map["id" := Number(1)]
    ensures Moved([Edge("Post", "authorId", "id")], "Post", "authorId", Null, original, updated) == Number(1)
  {
    var e := Edge("Post", "authorId", "id");
    OneEdgeMoves([e], e, Null, original, updated);
  }

  // ---- The edges are the relations ----

  /** q is the incoming side of r, which goes out from t. */
  predicate Pair(s: Tables, t: TableName, r: Rel, q: Rel) {
    q in Relations(s, r.relatedTable) && q.IsIncoming() && q.relatedTable == t && Opposite(s, q) == Some(r)
  }

  /** Both sides of every relation are known, no table points at itself, foreign keys of a table are
      apart, and no relation points at a foreign key. */
  ghost predicate WellPaired(s: Tables) {
    (forall t, r :: r in Relations(s, t) && !r.IsIncoming() ==>
       r.relatedTable != t && r.relatedTable in s && r.toField in s[r.relatedTable].fields &&
       exists q :: Pair(s, t, r, q)) &&
    (forall t, q :: q in Relations(s, t) && q.IsIncoming() && Opposite(s, q).Some? ==>
       !Opposite(s, q).value.IsIncoming() && Opposite(s, q).value.relatedTable == t) &&
    (forall t, r, q :: r in Relations(s, t) && q in Relations(s, t) && !r.IsIncoming() && !q.IsIncoming() ==>
       r.fromField != q.fromField || r == q) &&
    (forall t, u, r, q :: r in Relations(s, t) && q in Relations(s, u) && !r.IsIncoming() && !q.IsIncoming() ==>
       q.relatedTable != t || q.toField != r.fromField)
  }

  lemma {:induction false} EdgesOfRelations(s: Tables, rs: seq<Rel>, e: Edge)
    ensures e in EdgesOf(s, rs) <==> exists q :: q in rs && Opposite(s, q).Some? && EdgeOf(s, q) == e
  {
    if rs != [] {
      EdgesOfRelations(s, rs[..|rs| - 1], e);
      assert rs == rs[..|rs| - 1] + [rs[|rs| - 1]];
    }
  }

  predicate EdgeAt(s: Tables, table: TableName, f: FieldName, e: Edge) {
    e in EdgesOf(s, PointingAt(s, Relations(s, table), f))
  }

  lemma {:induction false} FieldOfEdge(s: Tables, table: TableName, fields: seq<FieldName>, e: Edge)
    returns (f: FieldName)
    requires e in Edges(s, table, fields)
    ensures f in fields && EdgeAt(s, table, f, e)
  {
    var front, last := fields[..|fields| - 1], fields[|fields| - 1];
    if e in Edges(s, table, front) {
      f := FieldOfEdge(s, table, front, e);
    } else {
      f := last;
    }
  }

  lemma {:induction false} EdgeOfField(s: Tables, table: TableName, fields: seq<FieldName>, f: FieldName, e: Edge)
    requires f in fields && EdgeAt(s, table, f, e)
    ensures e in Edges(s, table, fields)
  {
    if f in fields[..|fields| - 1] { EdgeOfField(s, table, fields[..|fields| - 1], f, e); }
  }

  /** Every edge is an outgoing relation of another table to a changed field of this one. */
  lemma EdgeIsRelation(s: Tables, table: TableName, fields: seq<FieldName>, e: Edge) returns (r: Rel)
    requires WellPaired(s) && e in Edges(s, table, fields)
    ensures r in Relations(s, e.table) && !r.IsIncoming() && r.relatedTable == table
    ensures r.fromField == e.fromField && r.toField == e.toField && e.toField in fields
  {
    var f := FieldOfEdge(s, table, fields, e);
    EdgesOfRelations(s, PointingAt(s, Relations(s, table), f), e);
    var q :| q in PointingAt(s, Relations(s, table), f) && Opposite(s, q).Some? && EdgeOf(s, q) == e;
    PointingAtIsFilter(s, Relations(s, table), f, q);
    r := Opposite(s, q).value;
  }

  lemma RelationIsEdge(s: Tables, t: TableName, r: Rel, fields: seq<FieldName>)
    requires WellPaired(s) && r in Relations(s, t) && !r.IsIncoming() && r.toField in fields
    ensures Edge(t, r.fromField, r.toField) in Edges(s, r.relatedTable, fields)
  {
    var q :| Pair(s, t, r, q);
    PointingAtIsFilter(s, Relations(s, r.relatedTable), r.toField, q);
    EdgesOfRelations(s, PointingAt(s, Relations(s, r.relatedTable), r.toField), Edge(t, r.fromField, r.toField));
    EdgeOfField(s, r.relatedTable, fields, r.toField, Edge(t, r.fromField, r.toField));
  }
}
