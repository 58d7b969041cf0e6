/** What an update promises about foreign keys: those that named the row follow it, nothing else
    changes, and every key still names a row. */
module ReferentialIntegrity {
  import opened Types
  import opened Schema
  import opened Relational
  import opened ForeignKeys

  ghost predicate Intact(s: Tables, db: Db) {
    forall t: TableName, r: ForeignKeys.Rel, row: Row ::
      r in Relations(s, t) && row in RowsOf(db, t) ==> (r.IsIncoming() || PointsSomewhere(db, r, Get(row, r.fromField)))
  }

  lemma {:induction false} UniqueMatch(rows: seq<Row>, where: Row) returns (j: nat)
    requires |Matching(rows, where)| == 1
    ensures j < |rows| && rows[j] == Matching(rows, where)[0] && Matches(rows[j], where)
    ensures forall k :: 0 <= k < |rows| && k != j ==> !Matches(rows[k], where)
  {
    var front, last := rows[..|rows| - 1], rows[|rows| - 1];
    if Matches(last, where) {
      j := |rows| - 1;
      forall k | 0 <= k < |front| ensures !Matches(rows[k], where) {
        assert rows[k] == front[k] && front[k] in front;
        MatchingIsFilter(front, where, front[k]);
      }
    } else {
      j := UniqueMatch(front, where);
    }
  }

  // ---- Columns and edges ----

  lemma NoEdgeElsewhere(s: Tables, table: TableName, fields: seq<FieldName>, t: TableName, r: ForeignKeys.Rel)
    requires WellPaired(s) && r in Relations(s, t) && !r.IsIncoming() &&
             (r.relatedTable != table || r.toField !in fields)
    ensures forall e :: e in Edges(s, table, fields) ==> !(e.table == t && e.fromField == r.fromField)
  {
    forall e | e in Edges(s, table, fields) ensures !(e.table == t && e.fromField == r.fromField) {
      var q := EdgeIsRelation(s, table, fields, e);
    }
  }

  lemma NoEdgeAtTarget(s: Tables, table: TableName, fields: seq<FieldName>, t: TableName, r: ForeignKeys.Rel)
    requires WellPaired(s) && r in Relations(s, t) && !r.IsIncoming()
    ensures forall e :: e in Edges(s, table, fields) ==> !(e.table == r.relatedTable && e.fromField == r.toField)
  {
    forall e | e in Edges(s, table, fields) ensures !(e.table == r.relatedTable && e.fromField == r.toField) {
      var q := EdgeIsRelation(s, table, fields, e);
    }
  }

  lemma NoEdgeInTable(s: Tables, table: TableName, fields: seq<FieldName>)
    requires WellPaired(s)
    ensures forall e :: e in Edges(s, table, fields) ==> e.table != table
  {
    forall e | e in Edges(s, table, fields) ensures e.table != table {
      var q := EdgeIsRelation(s, table, fields, e);
    }
  }

  lemma OneEdgePerColumn(s: Tables, t: TableName, r: ForeignKeys.Rel, fields: seq<FieldName>)
    requires WellPaired(s) && r in Relations(s, t) && !r.IsIncoming() && r.toField in fields
    ensures var e := Edge(t, r.fromField, r.toField);
      e in Edges(s, r.relatedTable, fields) &&
      forall x :: x in Edges(s, r.relatedTable, fields) && x.table == t && x.fromField == r.fromField ==> x == e
  {
    RelationIsEdge(s, t, r, fields);
    forall x | x in Edges(s, r.relatedTable, fields) && x.table == t && x.fromField == r.fromField
      ensures x == Edge(t, r.fromField, r.toField)
    {
      var q := EdgeIsRelation(s, r.relatedTable, fields, x);
    }
  }

  // ---- One update ----

  /** An update under way: row j of the table is the one row that matches, and its own keys name rows. */
  datatype RowUpdate = RowUpdate(db: Db, table: TableName, where: Row, data: Row, j: nat)
  {
    function Original(): Row
      requires j < |RowsOf(db, table)|
    {
      RowsOf(db, table)[j]
    }

    function New(): Row
      requires j < |RowsOf(db, table)|
    {
      Original() + data
    }

    function Written(): Db {
      UpdateMany(db, table, where, data)
    }
  }

  predicate Proper(c: RowUpdate) {
    c.j < |RowsOf(c.db, c.table)| && Matches(c.Original(), c.where) &&
    forall k :: 0 <= k < |RowsOf(c.db, c.table)| && k != c.j ==> !Matches(RowsOf(c.db, c.table)[k], c.where)
  }

  function ChangeEdges(s: Tables, c: RowUpdate): seq<Edge>
    requires c.table in s && Proper(c)
  {
    Edges(s, c.table, Changed(s[c.table].fields, c.Original(), c.New()))
  }

  function After(s: Tables, c: RowUpdate): Db
    requires c.table in s && Proper(c)
  {
    FollowAll(c.Written(), ChangeEdges(s, c), c.Original(), c.New())
  }

  predicate OwnKeysPoint(s: Tables, c: RowUpdate)
    requires Proper(c)
  {
    forall r :: r in Relations(s, c.table) ==> (r.IsIncoming() || PointsSomewhere(c.db, r, Get(c.New(), r.fromField)))
  }

  lemma WrittenRows(c: RowUpdate, k: nat)
    requires Proper(c) && k < |RowsOf(c.db, c.table)|
    ensures |RowsOf(c.Written(), c.table)| == |RowsOf(c.db, c.table)|
    ensures RowsOf(c.Written(), c.table)[k] == if k == c.j then c.New() else RowsOf(c.db, c.table)[k]
  {
  }

  /** What row k of any table holds afterwards in any column. */
  lemma CellAfter(s: Tables, c: RowUpdate, t: TableName, k: nat, f: FieldName)
    requires c.table in s && Proper(c) && k < |RowsOf(c.db, t)|
    ensures |RowsOf(After(s, c), t)| == |RowsOf(c.db, t)|
    ensures Get(RowsOf(After(s, c), t)[k], f) ==
            Moved(ChangeEdges(s, c), t, f,
                  Get(if t == c.table && k == c.j then c.New() else RowsOf(c.db, t)[k], f), c.Original(), c.New())
  {
    if t == c.table { WrittenRows(c, k); }
    EveryCellMoves(c.Written(), ChangeEdges(s, c), c.Original(), c.New(), t, k, f);
  }

  /** Exactly the keys that named the row follow it, when the field they name has changed. */
  lemma PointersFollow(s: Tables, c: RowUpdate, t: TableName, r: ForeignKeys.Rel, k: nat)
    requires WellPaired(s) && c.table in s && Proper(c) && r in Relations(s, t) && !r.IsIncoming() &&
             r.relatedTable == c.table
    requires k < |RowsOf(c.db, t)| && Get(c.Original(), r.toField) != Get(c.New(), r.toField)
    ensures |RowsOf(After(s, c), t)| == |RowsOf(c.db, t)|
    ensures var v := Get(RowsOf(c.db, t)[k], r.fromField);
      Get(RowsOf(After(s, c), t)[k], r.fromField) ==
      if v == Get(c.Original(), r.toField) then Get(c.New(), r.toField) else v
  {
    CellAfter(s, c, t, k, r.fromField);
    ChangedIsDiff(s[c.table].fields, c.Original(), c.New(), r.toField);
    OneEdgePerColumn(s, t, r, Changed(s[c.table].fields, c.Original(), c.New()));
    OneEdgeMoves(ChangeEdges(s, c), Edge(t, r.fromField, r.toField), Get(RowsOf(c.db, t)[k], r.fromField),
      c.Original(), c.New());
  }

  /** A column that is no foreign key to a changed field keeps its values in every row but the updated one. */
  lemma NothingElseChanges(s: Tables, c: RowUpdate, t: TableName, k: nat, f: FieldName)
    requires WellPaired(s) && c.table in s && Proper(c) && k < |RowsOf(c.db, t)| && !(t == c.table && k == c.j)
    requires forall r :: r in Relations(s, t) && !r.IsIncoming() && r.fromField == f ==>
      r.relatedTable != c.table || Get(c.Original(), r.toField) == Get(c.New(), r.toField)
    ensures |RowsOf(After(s, c), t)| == |RowsOf(c.db, t)|
    ensures Get(RowsOf(After(s, c), t)[k], f) == Get(RowsOf(c.db, t)[k], f)
  {
    CellAfter(s, c, t, k, f);
    var fields := Changed(s[c.table].fields, c.Original(), c.New());
    forall e | e in ChangeEdges(s, c) ensures !(e.table == t && e.fromField == f) {
      var r := EdgeIsRelation(s, c.table, fields, e);
      ChangedIsDiff(s[c.table].fields, c.Original(), c.New(), r.toField);
    }
    OtherColumnsStay(ChangeEdges(s, c), t, f, Get(RowsOf(c.db, t)[k], f), c.Original(), c.New());
  }

  /** The updated row ends up as the update says. */
  lemma UpdatedRowIsNew(s: Tables, c: RowUpdate, f: FieldName)
    requires WellPaired(s) && c.table in s && Proper(c)
    ensures |RowsOf(After(s, c), c.table)| == |RowsOf(c.db, c.table)|
    ensures Get(RowsOf(After(s, c), c.table)[c.j], f) == Get(c.New(), f)
  {
    CellAfter(s, c, c.table, c.j, f);
    NoEdgeInTable(s, c.table, Changed(s[c.table].fields, c.Original(), c.New()));
    OtherColumnsStay(ChangeEdges(s, c), c.table, f, Get(c.New(), f), c.Original(), c.New());
  }

  // ---- The whole effect of an update ----

  /** The relation leads from a cell with this value to a field of the updated row that has changed. */
  predicate Names(s: Tables, c: RowUpdate, t: TableName, r: ForeignKeys.Rel, v: SqlValue)
    requires Proper(c)
  {
    r in Relations(s, t) && !r.IsIncoming() && r.relatedTable == c.table &&
    Get(c.Original(), r.toField) != Get(c.New(), r.toField) && v == Get(c.Original(), r.toField)
  }

  /** Cell by cell: the matching row holds the data over its old values, each key that named it names it
      again, and every other cell is as before; rows stay in their places. */
  ghost predicate IsUpdated(s: Tables, c: RowUpdate, after: Db)
    requires Proper(c)
  {
    (forall t: TableName :: |RowsOf(after, t)| == |RowsOf(c.db, t)|) &&
    (forall f :: Get(RowsOf(after, c.table)[c.j], f) == if f in c.data then c.data[f] else Get(c.Original(), f)) &&
    forall t: TableName, k: nat, f: FieldName :: k < |RowsOf(c.db, t)| && !(t == c.table && k == c.j) ==>
      IsMovedCell(s, c, t, f, Get(RowsOf(c.db, t)[k], f), Get(RowsOf(after, t)[k], f))
  }

  ghost predicate IsMovedCell(s: Tables, c: RowUpdate, t: TableName, f: FieldName, v: SqlValue, w: SqlValue)
    requires Proper(c)
  {
    (forall r :: Names(s, c, t, r, v) && r.fromField == f ==> w == Get(c.New(), r.toField)) &&
    ((forall r :: Names(s, c, t, r, v) ==> r.fromField != f) ==> w == v)
  }

  lemma CellIsMoved(s: Tables, c: RowUpdate, t: TableName, k: nat, f: FieldName)
    requires WellPaired(s) && c.table in s && Proper(c) && k < |RowsOf(c.db, t)| && !(t == c.table && k == c.j)
    ensures |RowsOf(After(s, c), t)| == |RowsOf(c.db, t)|
    ensures IsMovedCell(s, c, t, f, Get(RowsOf(c.db, t)[k], f), Get(RowsOf(After(s, c), t)[k], f))
  {
    RowsAfter(s, c, t);
    if r :| r in Relations(s, t) && !r.IsIncoming() && r.fromField == f && r.relatedTable == c.table &&
            Get(c.Original(), r.toField) != Get(c.New(), r.toField) {
      PointersFollow(s, c, t, r, k);
    } else {
      NothingElseChanges(s, c, t, k, f);
    }
  }

  lemma AfterIsUpdated(s: Tables, c: RowUpdate)
    requires WellPaired(s) && c.table in s && Proper(c)
    ensures IsUpdated(s, c, After(s, c))
  {
    forall t: TableName ensures |RowsOf(After(s, c), t)| == |RowsOf(c.db, t)| { RowsAfter(s, c, t); }
    forall f
      ensures Get(RowsOf(After(s, c), c.table)[c.j], f) == if f in c.data then c.data[f] else Get(c.Original(), f)
    {
      UpdatedRowIsNew(s, c, f);
    }
    forall t: TableName, k: nat, f: FieldName | k < |RowsOf(c.db, t)| && !(t == c.table && k == c.j)
      ensures IsMovedCell(s, c, t, f, Get(RowsOf(c.db, t)[k], f), Get(RowsOf(After(s, c), t)[k], f))
    {
      CellIsMoved(s, c, t, k, f);
    }
  }

  /** A successful update finds one row and has changed the database cell by cell as it says. */
  lemma UpdateIsCellByCell(s: Tables, db: Db, table: TableName, where: Row, data: Row) returns (j: nat)
    requires WellPaired(s) && table in s && Updating(s, db, table, where, data).Some?
    ensures Proper(RowUpdate(db, table, where, data, j))
    ensures IsUpdated(s, RowUpdate(db, table, where, data, j), Updating(s, db, table, where, data).value)
  {
    j := UniqueMatch(RowsOf(db, table), where);
    AfterIsUpdated(s, RowUpdate(db, table, where, data, j));
  }

  lemma {:induction false} NoMatch(rows: seq<Row>, where: Row)
    requires forall k :: 0 <= k < |rows| ==> !Matches(rows[k], where)
    ensures Matching(rows, where) == []
  {
    if rows != [] { NoMatch(rows[..|rows| - 1], where); }
  }

  /** A query returns one row exactly when one row matches. */
  lemma {:induction false} OneMatch(rows: seq<Row>, where: Row, j: nat)
    requires j < |rows| && Matches(rows[j], where)
    ensures |Matching(rows, where)| == 1 <==> forall k :: 0 <= k < |rows| && k != j ==> !Matches(rows[k], where)
    ensures |Matching(rows, where)| == 1 ==> Matching(rows, where)[0] == rows[j]
  {
    if |Matching(rows, where)| == 1 {
      var i := UniqueMatch(rows, where);
    }
    if forall k :: 0 <= k < |rows| && k != j ==> !Matches(rows[k], where) {
      var front := rows[..|rows| - 1];
      if j == |rows| - 1 {
        NoMatch(front, where);
      } else {
        OneMatch(front, where, j);
        assert !Matches(rows[|rows| - 1], where);
      }
    }
  }

  lemma SameMatches(x: Row, y: Row, where: Row)
    requires forall f :: Get(x, f) == Get(y, f)
    ensures Matches(x, where) <==> Matches(y, where)
  {
  }

  /** The updated row matches what was asked for with the new data; the other rows match it as before. */
  lemma MatchesAfter(s: Tables, c: RowUpdate, k: nat)
    requires WellPaired(s) && c.table in s && Proper(c) && k < |RowsOf(c.db, c.table)|
    ensures |RowsOf(After(s, c), c.table)| == |RowsOf(c.db, c.table)|
    ensures Matches(RowsOf(After(s, c), c.table)[k], c.where + c.data) <==>
            k == c.j || Matches(RowsOf(c.db, c.table)[k], c.where + c.data)
  {
    RowsAfter(s, c, c.table);
    forall f ensures Get(RowsOf(After(s, c), c.table)[k], f) ==
                     Get(if k == c.j then c.New() else RowsOf(c.db, c.table)[k], f)
    {
      if k == c.j { UpdatedRowIsNew(s, c, f); } else { NothingElseChanges(s, c, c.table, k, f); }
    }
    SameMatches(RowsOf(After(s, c), c.table)[k], if k == c.j then c.New() else RowsOf(c.db, c.table)[k],
                c.where + c.data);
  }

  /** An update succeeds exactly when one row matches, and no other row matches what was asked for with the
      new data. */
  lemma UpdateSucceedsExactlyWhen(s: Tables, db: Db, table: TableName, where: Row, data: Row)
    requires WellPaired(s) && table in s
    ensures Updating(s, db, table, where, data).Some? <==>
      exists j: nat :: Proper(RowUpdate(db, table, where, data, j)) &&
        forall k :: 0 <= k < |RowsOf(db, table)| && k != j ==> !Matches(RowsOf(db, table)[k], where + data)
  {
    var rows := RowsOf(db, table);
    if |Matching(rows, where)| == 1 {
      var j := UniqueMatch(rows, where);
      var c := RowUpdate(db, table, where, data, j);
      var after := RowsOf(After(s, c), table);
      forall k | 0 <= k < |rows|
        ensures |after| == |rows| && (Matches(after[k], where + data) <==> k == j || Matches(rows[k], where + data))
      {
        MatchesAfter(s, c, k);
      }
      OneMatch(after, where + data, j);
    }
    forall j: nat | Proper(RowUpdate(db, table, where, data, j)) ensures |Matching(rows, where)| == 1 {
      OneMatch(rows, where, j);
    }
  }

  // ---- Integrity ----

  lemma NewValueExists(s: Tables, c: RowUpdate, f: FieldName)
    requires WellPaired(s) && c.table in s && Proper(c)
    ensures Exists(After(s, c), c.table, f, Get(c.New(), f))
  {
    UpdatedRowIsNew(s, c, f);
    var rows := RowsOf(After(s, c), c.table);
    assert rows[c.j] in rows;
  }

  /** A row named by a value that the update does not take away is still named by it. */
  lemma OtherTargetsStay(s: Tables, c: RowUpdate, t: TableName, r: ForeignKeys.Rel, v: SqlValue)
    requires WellPaired(s) && c.table in s && Proper(c) && r in Relations(s, t) && !r.IsIncoming()
    requires PointsSomewhere(c.db, r, v)
    requires r.relatedTable == c.table && v == Get(c.Original(), r.toField) ==> v == Get(c.New(), r.toField)
    ensures PointsSomewhere(After(s, c), r, v)
  {
    if v != Null {
      var rows := RowsOf(c.db, r.relatedTable);
      var row :| row in rows && Get(row, r.toField) == v;
      var k: nat :| k < |rows| && rows[k] == row;
      NoEdgeAtTarget(s, c.table, Changed(s[c.table].fields, c.Original(), c.New()), t, r);
      CellAfter(s, c, r.relatedTable, k, r.toField);
      OtherColumnsStay(ChangeEdges(s, c), r.relatedTable, r.toField, v, c.Original(), c.New());
      var after := RowsOf(After(s, c), r.relatedTable);
      assert after[k] in after;
    }
  }

  lemma KeyToUpdatedTable(s: Tables, c: RowUpdate, t: TableName, r: ForeignKeys.Rel, k: nat)
    requires WellPaired(s) && c.table in s && Proper(c) && Intact(s, c.db)
    requires r in Relations(s, t) && !r.IsIncoming() && r.relatedTable == c.table && k < |RowsOf(c.db, t)|
    ensures |RowsOf(After(s, c), t)| == |RowsOf(c.db, t)|
    ensures PointsSomewhere(After(s, c), r, Get(RowsOf(After(s, c), t)[k], r.fromField))
  {
    var v := Get(RowsOf(c.db, t)[k], r.fromField);
    assert PointsSomewhere(c.db, r, v);
    if Get(c.Original(), r.toField) != Get(c.New(), r.toField) {
      PointersFollow(s, c, t, r, k);
      NewValueExists(s, c, r.toField);
      if v != Get(c.Original(), r.toField) { OtherTargetsStay(s, c, t, r, v); }
    } else {
      NothingElseChanges(s, c, t, k, r.fromField);
      OtherTargetsStay(s, c, t, r, v);
    }
  }

  lemma KeyToOtherTable(s: Tables, c: RowUpdate, t: TableName, r: ForeignKeys.Rel, k: nat)
    requires WellPaired(s) && c.table in s && Proper(c) && Intact(s, c.db) && OwnKeysPoint(s, c)
    requires r in Relations(s, t) && !r.IsIncoming() && r.relatedTable != c.table && k < |RowsOf(c.db, t)|
    ensures |RowsOf(After(s, c), t)| == |RowsOf(c.db, t)|
    ensures PointsSomewhere(After(s, c), r, Get(RowsOf(After(s, c), t)[k], r.fromField))
  {
    var row := if t == c.table && k == c.j then c.New() else RowsOf(c.db, t)[k];
    assert PointsSomewhere(c.db, r, Get(row, r.fromField));
    CellAfter(s, c, t, k, r.fromField);
    NoEdgeElsewhere(s, c.table, Changed(s[c.table].fields, c.Original(), c.New()), t, r);
    OtherColumnsStay(ChangeEdges(s, c), t, r.fromField, Get(row, r.fromField), c.Original(), c.New());
    OtherTargetsStay(s, c, t, r, Get(row, r.fromField));
  }

  lemma {:induction false} RowsAfter(s: Tables, c: RowUpdate, t: TableName)
    requires c.table in s && Proper(c)
    ensures |RowsOf(After(s, c), t)| == |RowsOf(c.db, t)|
  {
    if |RowsOf(c.db, t)| > 0 {
      CellAfter(s, c, t, 0, "");
    } else {
      NoRows(c.Written(), ChangeEdges(s, c), c.Original(), c.New(), t);
    }
  }

  lemma {:induction false} NoRows(db: Db, edges: seq<Edge>, original: Row, updated: Row, t: TableName)
    requires RowsOf(db, t) == []
    ensures RowsOf(FollowAll(db, edges, original, updated), t) == []
  {
    if edges != [] { NoRows(db, edges[..|edges| - 1], original, updated, t); }
  }

  lemma IntegrityStays(s: Tables, c: RowUpdate)
    requires WellPaired(s) && c.table in s && Proper(c) && Intact(s, c.db) && OwnKeysPoint(s, c)
    ensures Intact(s, After(s, c))
  {
    forall t: TableName, r: ForeignKeys.Rel, row: Row
      | r in Relations(s, t) && row in RowsOf(After(s, c), t) && !r.IsIncoming()
      ensures PointsSomewhere(After(s, c), r, Get(row, r.fromField))
    {
      RowsAfter(s, c, t);
      var k: nat :| k < |RowsOf(After(s, c), t)| && RowsOf(After(s, c), t)[k] == row;
      if r.relatedTable == c.table { KeyToUpdatedTable(s, c, t, r, k); } else { KeyToOtherTable(s, c, t, r, k); }
    }
  }

  /** A successful update leaves no foreign key that points nowhere, provided the keys it writes into the
      row itself name rows. */
  lemma UpdateKeepsIntegrity(s: Tables, db: Db, table: TableName, where: Row, data: Row)
    requires WellPaired(s) && table in s && Intact(s, db) && Updating(s, db, table, where, data).Some?
    requires forall r :: r in Relations(s, table) ==>
      (r.IsIncoming() || PointsSomewhere(db, r, Get(Matching(RowsOf(db, table), where)[0] + data, r.fromField)))
    ensures Intact(s, Updating(s, db, table, where, data).value)
  {
    var j := UniqueMatch(RowsOf(db, table), where);
    var c := RowUpdate(db, table, where, data, j);
    IntegrityStays(s, c);
  }
}
