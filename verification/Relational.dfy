/** User tables as rows in order, and the meaning of the queries that the data access layer builds, as in
    clients/typescript/src/client/model/builder.ts. */
module Relational {
  import opened Types
  import opened Schema

  type Db = map<TableName, seq<Row>>

  function RowsOf(db: Db, table: TableName): seq<Row> {
    if table in db then db[table] else []
  }

  function Get(row: Row, field: FieldName): SqlValue {
    if field in row then row[field] else Null
  }

  /** WHERE with one condition per column: equality, or IS NULL for a null. */
  predicate Matches(row: Row, where: Row) {
    forall f :: f in where ==> Get(row, f) == where[f]
  }

  function Matching(rows: seq<Row>, where: Row): seq<Row> {
    if rows == [] then []
    else Matching(rows[..|rows| - 1], where) + if Matches(rows[|rows| - 1], where) then [rows[|rows| - 1]] else []
  }

  lemma {:induction false} MatchingIsFilter(rows: seq<Row>, where: Row, row: Row)
    ensures row in Matching(rows, where) <==> row in rows && Matches(row, where)
  {
    if rows != [] {
      MatchingIsFilter(rows[..|rows| - 1], where, row);
      assert rows == rows[..|rows| - 1] + [rows[|rows| - 1]];
    }
  }

  /** UPDATE ... SET ... WHERE. */
  function Updated(rows: seq<Row>, where: Row, data: Row): (r: seq<Row>)
    ensures |r| == |rows|
  {
    seq(|rows|, i requires 0 <= i < |rows| => if Matches(rows[i], where) then rows[i] + data else rows[i])
  }

  function UpdateMany(db: Db, table: TableName, where: Row, data: Row): Db {
    if table in db then db[table := Updated(db[table], where, data)] else db
  }

  // ---- What a query returns, in terms of places ----

  predicate Increasing(ps: seq<nat>) {
    forall i, j :: 0 <= i < j < |ps| ==> ps[i] < ps[j]
  }

  /** The places `ps` are these, in order, and `picked` are the rows there. */
  predicate IsPick(ps: seq<nat>, picked: seq<Row>, rows: seq<Row>, places: set<nat>) {
    |ps| == |picked| && Increasing(ps) &&
    (forall k :: k in ps ==> k in places) && (forall k :: k in places ==> k in ps) &&
    forall i :: 0 <= i < |ps| ==> ps[i] < |rows| && picked[i] == rows[ps[i]]
  }

  /** `picked` are the rows at these places, in table order. */
  ghost predicate InOrder(picked: seq<Row>, rows: seq<Row>, places: set<nat>) {
    exists ps: seq<nat> :: IsPick(ps, picked, rows, places)
  }

  function MatchingAt(rows: seq<Row>, where: Row): set<nat> {
    set k: nat | k < |rows| && Matches(rows[k], where)
  }

  function MatchingPlaces(rows: seq<Row>, where: Row): seq<nat> {
    if rows == [] then []
    else
      MatchingPlaces(rows[..|rows| - 1], where) +
      if Matches(rows[|rows| - 1], where) then [|rows| - 1] else []
  }

  lemma {:induction false} PlacesBelow(rows: seq<Row>, where: Row)
    ensures forall i :: 0 <= i < |MatchingPlaces(rows, where)| ==> MatchingPlaces(rows, where)[i] < |rows|
    ensures |MatchingPlaces(rows, where)| == |Matching(rows, where)|
  {
    if rows != [] { PlacesBelow(rows[..|rows| - 1], where); }
  }

  lemma {:induction false} PlacesMatch(rows: seq<Row>, where: Row, k: nat)
    ensures k in MatchingPlaces(rows, where) <==> k < |rows| && Matches(rows[k], where)
  {
    if rows != [] {
      PlacesMatch(rows[..|rows| - 1], where, k);
    }
  }

  lemma {:induction false} PlacesHold(rows: seq<Row>, where: Row, i: nat)
    requires i < |Matching(rows, where)|
    ensures |MatchingPlaces(rows, where)| == |Matching(rows, where)| && MatchingPlaces(rows, where)[i] < |rows|
    ensures Matching(rows, where)[i] == rows[MatchingPlaces(rows, where)[i]]
    ensures forall j :: 0 <= j < i ==> MatchingPlaces(rows, where)[j] < MatchingPlaces(rows, where)[i]
  {
    var front := rows[..|rows| - 1];
    PlacesBelow(rows, where);
    PlacesBelow(front, where);
    if i < |Matching(front, where)| {
      PlacesHold(front, where, i);
    }
  }

  /** A query returns the rows that match, in table order. */
  lemma MatchingInOrder(rows: seq<Row>, where: Row)
    ensures InOrder(Matching(rows, where), rows, MatchingAt(rows, where))
    ensures forall k :: k in MatchingAt(rows, where) <==>
            0 <= k < |rows| &&
            forall f :: f in where ==> if f in rows[k] then rows[k][f] == where[f] else where[f].Null?
  {
    var ps := MatchingPlaces(rows, where);
    PlacesBelow(rows, where);
    forall k ensures k in ps <==> k in MatchingAt(rows, where) {
      if k >= 0 { PlacesMatch(rows, where, k); }
    }
    forall i | 0 <= i < |ps|
      ensures Matching(rows, where)[i] == rows[ps[i]] && forall j :: 0 <= j < i ==> ps[j] < ps[i]
    {
      PlacesHold(rows, where, i);
    }
    assert IsPick(ps, Matching(rows, where), rows, MatchingAt(rows, where));
  }

  // ---- References ----

  predicate Exists(db: Db, table: TableName, field: FieldName, v: SqlValue) {
    exists row :: row in RowsOf(db, table) && Get(row, field) == v
  }

  predicate PointsSomewhere(db: Db, r: Schema.Relation, v: SqlValue) {
    v == Null || Exists(db, r.relatedTable, r.toField, v)
  }
}
