/** Fetching related rows in one query and joining them, as in
    clients/typescript/src/client/model/table.ts. */
module Include {
  import opened Types
  import opened Schema
  import opened Relational

  datatype Attached = Nothing | Single(row: Row) | Several(rows: seq<Row>)

  /** A row with what its relation field holds. */
  datatype Joined = Joined(row: Row, related: Attached)

  // ---- One query for all rows ----

  function Keys(rows: seq<Row>, field: FieldName): seq<SqlValue> {
    seq(|rows|, i requires 0 <= i < |rows| => Get(rows[i], field))
  }

  /** A value is IN a list when it equals one of it; a null equals nothing. */
  predicate IsIn(v: SqlValue, keys: seq<SqlValue>) {
    v != Null && v in keys
  }

  /** The condition on the target field takes the place of one that the caller gave. */
  function SelectIn(rows: seq<Row>, where: Row, field: FieldName, keys: seq<SqlValue>): seq<Row> {
    if rows == [] then []
    else
      var r := rows[|rows| - 1];
      SelectIn(rows[..|rows| - 1], where, field, keys) +
      if Matches(r, where - {field}) && IsIn(Get(r, field), keys) then [r] else []
  }

  function WithKey(rows: seq<Row>, field: FieldName, key: SqlValue): seq<Row> {
    if rows == [] then []
    else
      WithKey(rows[..|rows| - 1], field, key) +
      if Get(rows[|rows| - 1], field) == key then [rows[|rows| - 1]] else []
  }

  /** None stands for the error that a relation to one object found several. */
  function Attach(row: Row, related: seq<Row>, arity: Arity): Option<Joined> {
    if related == [] then Some(Joined(row, Nothing))
    else if arity == Many then Some(Joined(row, Several(related)))
    else if |related| > 1 then None
    else Some(Joined(row, Single(related[0])))
  }

  function JoinAll(rows: seq<Row>, related: seq<Row>, fromField: FieldName, toField: FieldName,
    arity: Arity): Option<seq<Joined>> {
    if rows == [] then Some([])
    else
      var before := JoinAll(rows[..|rows| - 1], related, fromField, toField, arity);
      var row := rows[|rows| - 1];
      var last := Attach(row, WithKey(related, toField, Get(row, fromField)), arity);
      if before.None? || last.None? then None else Some(before.value + [last.value])
  }

  method JoinObjects(rows: seq<Row>, relatedRows: seq<Row>, fromField: FieldName, toField: FieldName, arity: Arity)
    returns (joined: Option<seq<Joined>>)
    ensures joined == JoinAll(rows, relatedRows, fromField, toField, arity)
  {
    var done := [];
    for i := 0 to |rows|
      invariant JoinAll(rows[..i], relatedRows, fromField, toField, arity) == Some(done)
    {
      assert rows[..i + 1][..i] == rows[..i];
      var row := rows[i];
      var relatedObjects := WithKey(relatedRows, toField, Get(row, fromField));
      if |relatedObjects| == 0 {
        done := done + [Joined(row, Nothing)];
      } else if arity == One {
        if |relatedObjects| > 1 {
          ErrorStays(rows, relatedRows, fromField, toField, arity, i + 1);
          return None;
        }
        done := done + [Joined(row, Single(relatedObjects[0]))];
      } else {
        done := done + [Joined(row, Several(relatedObjects))];
      }
    }
    assert rows[..|rows|] == rows;
    joined := Some(done);
  }

  lemma {:induction false} ErrorStays(rows: seq<Row>, related: seq<Row>, fromField: FieldName, toField: FieldName,
        arity: Arity, n: nat)
    requires n <= |rows| && JoinAll(rows[..n], related, fromField, toField, arity).None?
    ensures JoinAll(rows, related, fromField, toField, arity).None?
  {
    if n == |rows| {
      assert rows[..n] == rows;
    } else {
      assert rows[..|rows| - 1][..n] == rows[..n];
      ErrorStays(rows[..|rows| - 1], related, fromField, toField, arity, n);
    }
  }

  function FetchRelated(db: Db, rows: seq<Row>, table: TableName, where: Row, fromField: FieldName,
        toField: FieldName, arity: Arity): Option<seq<Joined>> {
    JoinAll(rows, SelectIn(RowsOf(db, table), where, toField, Keys(rows, fromField)), fromField, toField, arity)
  }

  // ---- One query per row ----

  /** The rows that a query for this key alone returns. */
  function QueryFor(db: Db, table: TableName, where: Row, toField: FieldName, key: SqlValue): seq<Row> {
    Matching(RowsOf(db, table), where[toField := key])
  }

  /** What a row is related to: nothing when its key is null. */
  function RelatedTo(db: Db, row: Row, table: TableName, where: Row, fromField: FieldName,
    toField: FieldName): seq<Row> {
    if Get(row, fromField) == Null then [] else QueryFor(db, table, where, toField, Get(row, fromField))
  }

  function LookupAll(db: Db, rows: seq<Row>, table: TableName, where: Row, fromField: FieldName, toField: FieldName,
        arity: Arity): Option<seq<Joined>> {
    if rows == [] then Some([])
    else
      var before := LookupAll(db, rows[..|rows| - 1], table, where, fromField, toField, arity);
      var row := rows[|rows| - 1];
      var last := Attach(row, RelatedTo(db, row, table, where, fromField, toField), arity);
      if before.None? || last.None? then None else Some(before.value + [last.value])
  }

  lemma MatchesWithKey(r: Row, where: Row, field: FieldName, key: SqlValue)
    ensures Matches(r, where[field := key]) <==> Matches(r, where - {field}) && Get(r, field) == key
  {
    if Matches(r, where[field := key]) {
      forall f | f in where - {field} ensures Get(r, f) == where[f] {
        assert f in where[field := key];
      }
      assert field in where[field := key];
    }
    if Matches(r, where - {field}) && Get(r, field) == key {
      forall f | f in where[field := key] ensures Get(r, f) == where[field := key][f] {
        assert f != field ==> f in where - {field};
      }
    }
  }

  /** Of all rows fetched, those with a key of the list are what a query for that key returns. */
  lemma {:induction false} BatchHoldsEachQuery(rows: seq<Row>, where: Row, field: FieldName, keys: seq<SqlValue>,
        key: SqlValue)
    requires key in keys
    ensures WithKey(SelectIn(rows, where, field, keys), field, key) ==
            if key == Null then [] else Matching(rows, where[field := key])
  {
    if rows != [] {
      var front, r := rows[..|rows| - 1], rows[|rows| - 1];
      BatchHoldsEachQuery(front, where, field, keys, key);
      MatchesWithKey(r, where, field, key);
      var batch := SelectIn(front, where, field, keys);
      if Matches(r, where - {field}) && IsIn(Get(r, field), keys) {
        assert (batch + [r])[..|batch|] == batch;
      } else {
        assert batch + [] == batch;
      }
    }
  }

  lemma {:induction false} JoinIsLookup(db: Db, rows: seq<Row>, keys: seq<SqlValue>, table: TableName, where: Row,
        fromField: FieldName, toField: FieldName, arity: Arity)
    requires forall i :: 0 <= i < |rows| ==> Get(rows[i], fromField) in keys
    ensures JoinAll(rows, SelectIn(RowsOf(db, table), where, toField, keys), fromField, toField, arity) ==
            LookupAll(db, rows, table, where, fromField, toField, arity)
  {
    if rows != [] {
      var row := rows[|rows| - 1];
      JoinIsLookup(db, rows[..|rows| - 1], keys, table, where, fromField, toField, arity);
      BatchHoldsEachQuery(RowsOf(db, table), where, toField, keys, Get(row, fromField));
    }
  }

  /** One query for all rows and the join attach to each row, in order, what its own query returns, and
      fail exactly when one of them finds several objects where there can be one. */
  lemma BatchRefinesLookup(db: Db, rows: seq<Row>, table: TableName, where: Row, fromField: FieldName,
        toField: FieldName, arity: Arity)
    ensures FetchRelated(db, rows, table, where, fromField, toField, arity) ==
            LookupAll(db, rows, table, where, fromField, toField, arity)
  {
    var keys := Keys(rows, fromField);
    forall i | 0 <= i < |rows| ensures Get(rows[i], fromField) in keys { assert keys[i] == Get(rows[i], fromField); }
    JoinIsLookup(db, rows, keys, table, where, fromField, toField, arity);
  }

  /** A query for the key itself agrees exactly when the key is not null or no row asked for has a null there. */
  lemma NullKeyAgreesExactlyWhen(db: Db, row: Row, table: TableName, where: Row, fromField: FieldName,
        toField: FieldName)
    ensures RelatedTo(db, row, table, where, fromField, toField) ==
            QueryFor(db, table, where, toField, Get(row, fromField)) <==>
            Get(row, fromField) != Null ||
            forall r :: r in RowsOf(db, table) && Matches(r, where - {toField}) ==> Get(r, toField) != Null
  {
    var found := QueryFor(db, table, where, toField, Null);
    forall r
      ensures r in found <==> r in RowsOf(db, table) && Matches(r, where - {toField}) && Get(r, toField) == Null
    {
      MatchingIsFilter(RowsOf(db, table), where[toField := Null], r);
      MatchesWithKey(r, where, toField, Null);
    }
    if found != [] { assert found[0] in found; }
  }

  /** Dropping the caller's condition on the field of the join makes a difference for a row exactly when the
      row has another key than asked for and that key finds something. */
  lemma DroppedConditionMattersExactlyWhen(db: Db, row: Row, table: TableName, where: Row, fromField: FieldName,
        toField: FieldName)
    ensures var found := RelatedTo(db, row, table, where, fromField, toField);
      found != Matching(found, where) <==>
      toField in where && where[toField] != Get(row, fromField) && found != []
  {
    var found, key := RelatedTo(db, row, table, where, fromField, toField), Get(row, fromField);
    forall r ensures r in found ==> (Matches(r, where) <==> (toField in where ==> where[toField] == key)) {
      if r in found {
        MatchingIsFilter(RowsOf(db, table), where[toField := key], r);
        MatchesButOne(r, where, toField, key);
      }
    }
    if toField in where && where[toField] != key {
      NoneMatching(found, where);
    } else {
      AllMatching(found, where);
    }
  }

  lemma MatchesButOne(r: Row, where: Row, field: FieldName, key: SqlValue)
    requires Matches(r, where[field := key])
    ensures Matches(r, where) <==> (field in where ==> where[field] == key)
  {
    assert field in where[field := key] && Get(r, field) == key;
    forall f | f in where && f != field ensures Get(r, f) == where[f] { assert f in where[field := key]; }
  }

  lemma {:induction false} AllMatching(rows: seq<Row>, where: Row)
    requires forall r :: r in rows ==> Matches(r, where)
    ensures Matching(rows, where) == rows
  {
    if rows != [] {
      assert rows == rows[..|rows| - 1] + [rows[|rows| - 1]];
      AllMatching(rows[..|rows| - 1], where);
    }
  }

  lemma {:induction false} NoneMatching(rows: seq<Row>, where: Row)
    requires forall r :: r in rows ==> !Matches(r, where)
    ensures Matching(rows, where) == []
  {
    if rows != [] {
      assert rows == rows[..|rows| - 1] + [rows[|rows| - 1]];
      NoneMatching(rows[..|rows| - 1], where);
    }
  }

  // ---- Relations ----

  /** What the caller asks to include: nothing, or the related rows with these values. */
  datatype IncludeArg = No | Yes(where: Row)

  predicate Followable(s: Tables, r: Schema.Relation) {
    r.IsIncoming() ==> Opposite(s, r).Some?
  }

  /** An incoming relation is followed backwards, with the fields of its outgoing side. */
  function FetchInclude(s: Tables, db: Db, rows: seq<Row>, r: Schema.Relation, arg: IncludeArg): Option<seq<Joined>>
    requires Followable(s, r)
  {
    if arg.No? then Some([])
    else if r.IsIncoming() then
      var opposite := Opposite(s, r).value;
      FetchRelated(db, rows, r.relatedTable, arg.where, opposite.toField, opposite.fromField, r.relatedObjects)
    else FetchRelated(db, rows, r.relatedTable, arg.where, r.fromField, r.toField, r.relatedObjects)
  }

  /** Rows a and b are related by r when the key on the outgoing side names the other one. */
  predicate IsRelated(s: Tables, r: Schema.Relation, row: Row, other: Row)
    requires Followable(s, r)
  {
    if r.IsIncoming() then
      Get(other, Opposite(s, r).value.fromField) != Null &&
      Get(other, Opposite(s, r).value.fromField) == Get(row, Opposite(s, r).value.toField)
    else Get(row, r.fromField) != Null && Get(row, r.fromField) == Get(other, r.toField)
  }

  function Rows(a: Attached): seq<Row> {
    match a
    case Nothing => []
    case Single(r) => [r]
    case Several(rs) => rs
  }

  lemma AttachHolds(row: Row, related: seq<Row>, arity: Arity)
    requires Attach(row, related, arity).Some?
    ensures Attach(row, related, arity).value.row == row && Rows(Attach(row, related, arity).value.related) == related
  {
    if |related| == 1 { assert [related[0]] == related; }
  }

  lemma {:induction false} LookupLength(db: Db, rows: seq<Row>, table: TableName, where: Row, fromField: FieldName,
        toField: FieldName, arity: Arity)
    requires LookupAll(db, rows, table, where, fromField, toField, arity).Some?
    ensures |LookupAll(db, rows, table, where, fromField, toField, arity).value| == |rows|
  {
    if rows != [] { LookupLength(db, rows[..|rows| - 1], table, where, fromField, toField, arity); }
  }

  lemma {:induction false} LookupHolds(db: Db, rows: seq<Row>, table: TableName, where: Row, fromField: FieldName,
        toField: FieldName, arity: Arity, i: nat)
    requires i < |rows| && LookupAll(db, rows, table, where, fromField, toField, arity).Some?
    ensures var joined := LookupAll(db, rows, table, where, fromField, toField, arity).value;
      |joined| == |rows| && joined[i].row == rows[i] &&
        Rows(joined[i].related) == RelatedTo(db, rows[i], table, where, fromField, toField)
  {
    var front := rows[..|rows| - 1];
    LookupLength(db, front, table, where, fromField, toField, arity);
    if i < |front| {
      LookupHolds(db, front, table, where, fromField, toField, arity, i);
    } else {
      AttachHolds(rows[i], RelatedTo(db, rows[i], table, where, fromField, toField), arity);
    }
  }

  /** In both directions and for both arities, each row comes back in its place with exactly the rows of
      the other table that are related to it and hold the values asked for. */
  lemma IncludeAttachesRelated(s: Tables, db: Db, rows: seq<Row>, r: Schema.Relation, where: Row, i: nat, other: Row)
    requires Followable(s, r) && i < |rows| && FetchInclude(s, db, rows, r, Yes(where)).Some?
    ensures var joined := FetchInclude(s, db, rows, r, Yes(where)).value;
      var toField := if r.IsIncoming() then Opposite(s, r).value.fromField else r.toField;
      |joined| == |rows| && joined[i].row == rows[i] &&
      (other in Rows(joined[i].related) <==>
       other in RowsOf(db, r.relatedTable) && IsRelated(s, r, rows[i], other) && Matches(other, where - {toField}))
  {
    var fromField := if r.IsIncoming() then Opposite(s, r).value.toField else r.fromField;
    var toField := if r.IsIncoming() then Opposite(s, r).value.fromField else r.toField;
    BatchRefinesLookup(db, rows, r.relatedTable, where, fromField, toField, r.relatedObjects);
    LookupHolds(db, rows, r.relatedTable, where, fromField, toField, r.relatedObjects, i);
    MatchingIsFilter(RowsOf(db, r.relatedTable), where[toField := Get(rows[i], fromField)], other);
    MatchesWithKey(other, where, toField, Get(rows[i], fromField));
  }

  // ---- What is attached, in terms of the rows of the related table ----

  /** The places of rows of the other table that are related to the row and hold the values asked for. */
  function RelatedAt(s: Tables, db: Db, r: Schema.Relation, where: Row, row: Row): set<nat>
    requires Followable(s, r)
  {
    var table := RowsOf(db, r.relatedTable);
    var toField := if r.IsIncoming() then Opposite(s, r).value.fromField else r.toField;
    set k: nat | k < |table| && IsRelated(s, r, row, table[k]) && Matches(table[k], where - {toField})
  }

  /** As many rows are picked as there are places. */
  lemma PickedCount(picked: seq<Row>, rows: seq<Row>, places: set<nat>)
    requires InOrder(picked, rows, places)
    ensures picked == [] <==> places == {}
    ensures |picked| <= 1 <==> forall k, l :: k in places && l in places ==> k == l
    ensures |picked| == 1 ==> exists k :: places == {k} && k < |rows| && picked[0] == rows[k]
  {
    var ps: seq<nat> :| IsPick(ps, picked, rows, places);
    if |ps| > 0 { assert ps[0] in places; }
    if |ps| > 1 { assert ps[1] in places && ps[0] < ps[1]; }
    if |ps| == 1 { assert places == {ps[0]}; }
  }

  /** What the relation field of one row holds: nothing, the one object, or all of them in table order. */
  ghost predicate Holds(a: Attached, arity: Arity, rows: seq<Row>, places: set<nat>) {
    match a
    case Nothing => places == {}
    case Single(x) => arity == One && exists k :: places == {k} && k < |rows| && x == rows[k]
    case Several(xs) => arity == Many && places != {} && InOrder(xs, rows, places)
  }

  predicate Ambiguous(places: set<nat>) {
    exists k, l :: k in places && l in places && k != l
  }

  lemma AttachIs(row: Row, related: seq<Row>, arity: Arity, rows: seq<Row>, places: set<nat>)
    requires InOrder(related, rows, places)
    ensures Attach(row, related, arity).None? <==> arity == One && Ambiguous(places)
    ensures Attach(row, related, arity).Some? ==>
      Attach(row, related, arity).value.row == row &&
      Holds(Attach(row, related, arity).value.related, arity, rows, places)
  {
    PickedCount(related, rows, places);
  }

  lemma RelatedInOrder(s: Tables, db: Db, r: Schema.Relation, where: Row, row: Row)
    requires Followable(s, r)
    ensures InOrder(RelatedTo(db, row, r.relatedTable, where, ThisField(s, r), ThatField(s, r)),
                    RowsOf(db, r.relatedTable), RelatedAt(s, db, r, where, row))
  {
    var fromField := if r.IsIncoming() then Opposite(s, r).value.toField else r.fromField;
    var toField := if r.IsIncoming() then Opposite(s, r).value.fromField else r.toField;
    var table, key := RowsOf(db, r.relatedTable), Get(row, fromField);
    if key == Null {
      assert RelatedAt(s, db, r, where, row) == {};
      assert IsPick([], [], table, {});
    } else {
      MatchingInOrder(table, where[toField := key]);
      forall k: nat | k < |table|
        ensures Matches(table[k], where[toField := key]) <==>
                IsRelated(s, r, row, table[k]) && Matches(table[k], where - {toField})
      {
        MatchesWithKey(table[k], where, toField, key);
      }
      assert MatchingAt(table, where[toField := key]) == RelatedAt(s, db, r, where, row);
    }
  }

  /** Each row in its place, with what is related to it. */
  ghost predicate AllHold(s: Tables, db: Db, rows: seq<Row>, r: Schema.Relation, where: Row, joined: seq<Joined>)
    requires Followable(s, r)
  {
    |joined| == |rows| && forall i :: 0 <= i < |rows| ==>
      joined[i].row == rows[i] &&
      Holds(joined[i].related, r.relatedObjects, RowsOf(db, r.relatedTable), RelatedAt(s, db, r, where, rows[i]))
  }

  function ThisField(s: Tables, r: Schema.Relation): FieldName
    requires Followable(s, r)
  {
    if r.IsIncoming() then Opposite(s, r).value.toField else r.fromField
  }

  function ThatField(s: Tables, r: Schema.Relation): FieldName
    requires Followable(s, r)
  {
    if r.IsIncoming() then Opposite(s, r).value.fromField else r.toField
  }

  ghost predicate SomeAmbiguous(s: Tables, db: Db, rows: seq<Row>, r: Schema.Relation, where: Row)
    requires Followable(s, r)
  {
    exists i :: 0 <= i < |rows| && Ambiguous(RelatedAt(s, db, r, where, rows[i]))
  }

  lemma OneMoreRow(s: Tables, db: Db, rows: seq<Row>, r: Schema.Relation, where: Row)
    requires Followable(s, r) && rows != []
    ensures SomeAmbiguous(s, db, rows, r, where) <==>
            SomeAmbiguous(s, db, rows[..|rows| - 1], r, where) ||
            Ambiguous(RelatedAt(s, db, r, where, rows[|rows| - 1]))
  {
    assert forall i :: 0 <= i < |rows| - 1 ==> rows[..|rows| - 1][i] == rows[i];
  }

  lemma OneMoreHolds(s: Tables, db: Db, rows: seq<Row>, r: Schema.Relation, where: Row, joined: seq<Joined>,
        last: Joined)
    requires Followable(s, r) && rows != [] && AllHold(s, db, rows[..|rows| - 1], r, where, joined)
    requires last.row == rows[|rows| - 1]
    requires Holds(last.related, r.relatedObjects, RowsOf(db, r.relatedTable),
                   RelatedAt(s, db, r, where, rows[|rows| - 1]))
    ensures AllHold(s, db, rows, r, where, joined + [last])
  {
    assert forall i :: 0 <= i < |rows| - 1 ==> rows[..|rows| - 1][i] == rows[i];
  }

  lemma {:induction false} LookupIs(s: Tables, db: Db, rows: seq<Row>, r: Schema.Relation, where: Row)
    requires Followable(s, r)
    ensures
      var joined := LookupAll(db, rows, r.relatedTable, where, ThisField(s, r), ThatField(s, r), r.relatedObjects);
      (joined.None? <==> r.relatedObjects == One && SomeAmbiguous(s, db, rows, r, where)) &&
      (joined.Some? ==> AllHold(s, db, rows, r, where, joined.value))
  {
    if rows != [] {
      var front, row := rows[..|rows| - 1], rows[|rows| - 1];
      var related := RelatedTo(db, row, r.relatedTable, where, ThisField(s, r), ThatField(s, r));
      LookupIs(s, db, front, r, where);
      RelatedInOrder(s, db, r, where, row);
      AttachIs(row, related, r.relatedObjects, RowsOf(db, r.relatedTable), RelatedAt(s, db, r, where, row));
      OneMoreRow(s, db, rows, r, where);
      var before := LookupAll(db, front, r.relatedTable, where, ThisField(s, r), ThatField(s, r), r.relatedObjects);
      if before.Some? && Attach(row, related, r.relatedObjects).Some? {
        OneMoreHolds(s, db, rows, r, where, before.value, Attach(row, related, r.relatedObjects).value);
      }
    }
  }

  /** Including a relation is an error exactly when it leads to one object and some row has related rows at
      different places.  Otherwise each row comes back in its place with nothing, the one object, or for a
      relation to many all related rows in table order, also when that is one. */
  lemma IncludeIs(s: Tables, db: Db, rows: seq<Row>, r: Schema.Relation, where: Row)
    requires Followable(s, r)
    ensures var joined := FetchInclude(s, db, rows, r, Yes(where));
      (joined.None? <==>
       r.relatedObjects == One && exists i :: 0 <= i < |rows| && Ambiguous(RelatedAt(s, db, r, where, rows[i]))) &&
      (joined.Some? ==> AllHold(s, db, rows, r, where, joined.value)) &&
      FetchInclude(s, db, rows, r, No) == Some([])
  {
    BatchRefinesLookup(db, rows, r.relatedTable, where, ThisField(s, r), ThatField(s, r), r.relatedObjects);
    LookupIs(s, db, rows, r, where);
  }

  // ---- Several relations ----

  datatype Asked = Asked(relation: Schema.Relation, arg: IncludeArg)

  predicate AllFollowable(s: Tables, asked: seq<Asked>) {
    forall i :: 0 <= i < |asked| ==> Followable(s, asked[i].relation)
  }

  /** The rows that come back are those of each included relation, one list after the other. */
  function FetchIncludes(s: Tables, db: Db, rows: seq<Row>, asked: seq<Asked>): Option<seq<Joined>>
    requires AllFollowable(s, asked)
  {
    if asked == [] then Some([])
    else
      var before := FetchIncludes(s, db, rows, asked[..|asked| - 1]);
      var last := FetchInclude(s, db, rows, asked[|asked| - 1].relation, asked[|asked| - 1].arg);
      if before.None? || last.None? then None else Some(before.value + last.value)
  }

  function Included(asked: seq<Asked>): nat {
    if asked == [] then 0
    else Included(asked[..|asked| - 1]) + if asked[|asked| - 1].arg.No? then 0 else 1
  }

  function Originals(joined: seq<Joined>): seq<Row> {
    seq(|joined|, i requires 0 <= i < |joined| => joined[i].row)
  }

  lemma {:induction false} JoinKeepsRows(rows: seq<Row>, related: seq<Row>, fromField: FieldName,
        toField: FieldName, arity: Arity)
    requires JoinAll(rows, related, fromField, toField, arity).Some?
    ensures Originals(JoinAll(rows, related, fromField, toField, arity).value) == rows
  {
    if rows != [] { JoinKeepsRows(rows[..|rows| - 1], related, fromField, toField, arity); }
  }

  lemma IncludeKeepsRows(s: Tables, db: Db, rows: seq<Row>, r: Schema.Relation, arg: IncludeArg)
    requires Followable(s, r) && FetchInclude(s, db, rows, r, arg).Some?
    ensures Originals(FetchInclude(s, db, rows, r, arg).value) == if arg.No? then [] else rows
  {
    if arg.Yes? {
      var fromField := if r.IsIncoming() then Opposite(s, r).value.toField else r.fromField;
      var toField := if r.IsIncoming() then Opposite(s, r).value.fromField else r.toField;
      JoinKeepsRows(rows, SelectIn(RowsOf(db, r.relatedTable), arg.where, toField, Keys(rows, fromField)),
        fromField, toField, r.relatedObjects);
    }
  }

  function Repeated(rows: seq<Row>, n: nat): seq<Row> {
    if n == 0 then [] else Repeated(rows, n - 1) + rows
  }

  lemma {:induction false} RepeatedLength(rows: seq<Row>, n: nat)
    ensures |Repeated(rows, n)| == n * |rows|
  {
    if n > 0 { RepeatedLength(rows, n - 1); }
  }

  /** The rows come back once for every included relation. */
  lemma {:induction false} RowsAreRepeated(s: Tables, db: Db, rows: seq<Row>, asked: seq<Asked>)
    requires AllFollowable(s, asked)
    requires FetchIncludes(s, db, rows, asked).Some?
    ensures Originals(FetchIncludes(s, db, rows, asked).value) == Repeated(rows, Included(asked))
  {
    if asked != [] {
      var front, last := asked[..|asked| - 1], asked[|asked| - 1];
      RowsAreRepeated(s, db, rows, front);
      IncludeKeepsRows(s, db, rows, last.relation, last.arg);
      var before, joined := FetchIncludes(s, db, rows, front).value,
        FetchInclude(s, db, rows, last.relation, last.arg).value;
      assert Originals(before + joined) == Originals(before) + Originals(joined);
    }
  }

  /** A query that found rows gives each of them back once exactly when one relation is included. */
  lemma RowsComeBackOnceExactlyWhen(s: Tables, db: Db, rows: seq<Row>, asked: seq<Asked>)
    requires AllFollowable(s, asked)
    requires rows != [] && FetchIncludes(s, db, rows, asked).Some?
    ensures Originals(FetchIncludes(s, db, rows, asked).value) == rows <==> Included(asked) == 1
  {
    RowsAreRepeated(s, db, rows, asked);
    RepeatedLength(rows, Included(asked));
    var n := Included(asked);
    if n == 1 {
      assert Repeated(rows, 0) + rows == rows;
    } else if n > 1 {
      Product(n, |rows|);
    }
  }

  lemma Product(n: nat, m: nat)
    requires n > 1 && m > 0
    ensures n * m != m
  {
  }

  lemma JoinNothing(row: Row, fromField: FieldName, toField: FieldName, arity: Arity)
    ensures JoinAll([row], [], fromField, toField, arity) == Some([Joined(row, Nothing)])
  {
    assert [row][..0] == [] && [] + [Joined(row, Nothing)] == [Joined(row, Nothing)];
    assert WithKey([], toField, Get(row, fromField)) == [];
  }

  /** One row and two included relations: the row comes back twice. */
  lemma TwoRelationsGiveTheRowTwice(row: Row, r: Schema.Relation)
    requires r == Schema.Relation("author", "authorId", "id", "User", "PostToUser", One)
    ensures var asked := [Asked(r, Yes(map[])), Asked(r, Yes(map[]))];
      AllFollowable(map[], asked) && FetchIncludes(map[], map[], [row], asked).Some? &&
      Originals(FetchIncludes(map[], map[], [row], asked).value) == [row, row]
  {
    var asked := [Asked(r, Yes(map[])), Asked(r, Yes(map[]))];
    var one := FetchInclude(map[], map[], [row], r, Yes(map[]));
    assert !r.IsIncoming() && RowsOf(map[], "User") == [] && [row][..0] == [];
    JoinNothing(row, "authorId", "id", One);
    assert one == Some([Joined(row, Nothing)]);
    assert asked[..1][..0] == [];
    assert FetchIncludes(map[], map[], [row], asked[..1]) == Some([] + one.value);
    RowsAreRepeated(map[], map[], [row], asked);
    assert Included(asked) == 2 by { assert Included(asked[..1]) == 1; }
    assert Repeated([row], 1) == [row];
  }
}
