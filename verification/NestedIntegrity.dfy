/** What nested creation promises: one row per node, keys that name the rows made, and no insert
    that leaves a key pointing nowhere. */
module NestedIntegrity {
  import opened Types
  import opened Schema
  import opened Relational
  import opened NestedCreate

  // ---- Assumptions ----

  /** Relation fields are no columns, and no two outgoing relations share a foreign key. */
  predicate NamesApart(rs: seq<NestedCreate.Relation>) {
    rs == [] ||
    var last := rs[|rs| - 1];
    NamesApart(rs[..|rs| - 1]) && last.relationField != last.fromField &&
    forall r :: r in rs[..|rs| - 1] ==>
      r.relationField != last.relationField && r.relationField != last.fromField && r.fromField != last.relationField &&
      (!r.IsIncoming() && !last.IsIncoming() ==> r.fromField != last.fromField)
  }

  ghost predicate WellNamed(s: Tables) {
    forall table :: table in s ==> NamesApart(Relations(s, table))
  }

  /** A stored row holds what was inserted, and null in the foreign keys that were left out. */
  predicate Stores(s: Tables, table: TableName, data: Row, row: Row) {
    (forall f :: f in data ==> f in row && row[f] == data[f]) &&
    forall r :: r in Relations(s, table) && !r.IsIncoming() && r.fromField !in data ==> Get(row, r.fromField) == Null
  }

  ghost predicate Honest(s: Tables, e: Engine) {
    forall table: TableName, data: Row, db: Db :: e(table, data, db).Some? ==>
      Stores(s, table, data, e(table, data, db).value)
  }

  // ---- The row that is read back ----

  lemma {:induction false} RowsStay(db: Db, log: seq<Insert>, table: TableName, row: Row)
    requires row in RowsOf(db, table)
    ensures row in RowsOf(ApplyAll(db, log), table)
  {
    if log != [] { RowsStay(db, log[..|log| - 1], table, row); }
  }

  lemma OnlyMatch(rows: seq<Row>, where: Row, row: Row)
    requires row in rows && Matches(row, where) && |Matching(rows, where)| == 1
    ensures Matching(rows, where)[0] == row
  {
    MatchingIsFilter(rows, where, row);
  }

  /** The row handed to the continuation is the one that was inserted, and it is there at the end. */
  lemma FoundIsMade(s: Tables, e: Engine, db: Db, table: TableName, tree: Tree, given: Row)
    requires Honest(s, e) && Create(s, e, db, table, tree, given).Done?
    ensures var o := Create(s, e, db, table, tree, given);
      o.found == o.made.row && o.found in RowsOf(ApplyAll(db, o.log), table)
  {
    var rs := Relations(s, table);
    var targets := CreateTargets(s, e, db, rs, tree, StartData(tree, given));
    var where := Columns(WithoutRelated(targets.data, rs));
    var db1 := ApplyAll(db, targets.log);
    var row := e(table, where, db1).value;
    var i := Insert(table, row);
    var db2 := Applied(db1, i);
    var related := RunJobs(s, e, db2, tree, Jobs(s, rs, tree), row);
    assert Stores(s, table, where, row);
    RowsStay(db2, related.log, table, row);
    OnlyMatch(RowsOf(ApplyAll(db2, related.log), table), where, row);
    ThreeParts(db, targets.log, i, related.log);
  }

  // ---- What is inserted ----

  /** A field that belongs to no relation with a target keeps its entry. */
  lemma {:induction false} OtherFieldsKeep(s: Tables, e: Engine, db: Db, rs: seq<NestedCreate.Relation>, tree: Tree,
        data: Data, f: FieldName)
    requires forall r :: r in rs && HasTarget(tree, r) ==> f != r.relationField && f != r.fromField
    requires CreateTargets(s, e, db, rs, tree, data).Progress?
    ensures var p := CreateTargets(s, e, db, rs, tree, data);
      (f in p.data <==> f in data) && (f in data ==> p.data[f] == data[f])
  {
    if rs != [] {
      OtherFieldsKeep(s, e, db, rs[..|rs| - 1], tree, data, f);
      assert rs[|rs| - 1] in rs;
    }
  }

  /** When its turn comes, a relation field still holds what the input held. */
  lemma RelationFieldStays(s: Tables, e: Engine, db: Db, rs: seq<NestedCreate.Relation>, tree: Tree, data: Data)
    requires rs != [] && NamesApart(rs) && CreateTargets(s, e, db, rs[..|rs| - 1], tree, data).Progress?
    ensures var now, f := CreateTargets(s, e, db, rs[..|rs| - 1], tree, data).data, rs[|rs| - 1].relationField;
      (f in now <==> f in data) && (f in data ==> now[f] == data[f])
  {
    OtherFieldsKeep(s, e, db, rs[..|rs| - 1], tree, data, rs[|rs| - 1].relationField);
  }

  lemma {:induction false} RemovedExactly(data: Data, rs: seq<NestedCreate.Relation>, f: FieldName)
    ensures var rest := WithoutRelated(data, rs);
      (f in rest <==> f in data && forall r :: r in rs && r.IsIncoming() ==> f != r.relationField) &&
      (f in rest ==> rest[f] == data[f])
  {
    if rs != [] {
      RemovedExactly(data, rs[..|rs| - 1], f);
      assert rs == rs[..|rs| - 1] + [rs[|rs| - 1]];
    }
  }

  /** The foreign keys of the relations with a target hold the keys of the rows made for them. */
  ghost predicate KeysSet(data: Data, links: seq<Link>, rs: seq<NestedCreate.Relation>) {
    forall l :: l in links ==>
      l.relation in rs && !l.relation.IsIncoming() &&
      l.relation.fromField in data && data[l.relation.fromField] == Value(Get(l.made.row, l.relation.toField))
  }

  lemma KeysSetOneMore(data: Data, links: seq<Link>, rs: seq<NestedCreate.Relation>, made: Made)
    requires rs != [] && KeysSet(data, links, rs[..|rs| - 1]) && NamesApart(rs) && !rs[|rs| - 1].IsIncoming()
    ensures var r := rs[|rs| - 1]; KeysSet(WithKey(data, r, made.row), links + [Link(r, made)], rs)
  {
    var front, r := rs[..|rs| - 1], rs[|rs| - 1];
    forall l | l in links
      ensures l.relation in rs && l.relation.fromField != r.fromField && l.relation.fromField != r.relationField
    {
      assert l.relation in front;
    }
  }

  lemma {:induction false} TargetsSetKeys(s: Tables, e: Engine, db: Db, rs: seq<NestedCreate.Relation>, tree: Tree,
        data: Data)
    requires Honest(s, e) && NamesApart(rs) && CreateTargets(s, e, db, rs, tree, data).Progress?
    ensures var p := CreateTargets(s, e, db, rs, tree, data); KeysSet(p.data, p.links, rs)
  {
    if rs != [] {
      var front, r := rs[..|rs| - 1], rs[|rs| - 1];
      TargetsSetKeys(s, e, db, front, tree, data);
      var before := CreateTargets(s, e, db, front, tree, data);
      if HasTarget(tree, r) {
        var child := tree.data[r.relationField].tree;
        var o := Create(s, e, ApplyAll(db, before.log), r.relatedTable, child, map[]);
        FoundIsMade(s, e, ApplyAll(db, before.log), r.relatedTable, child, map[]);
        KeysSetOneMore(before.data, before.links, rs, o.made);
      } else {
        KeysSetStays(before.data, before.links, rs);
      }
    }
  }

  lemma KeysSetStays(data: Data, links: seq<Link>, rs: seq<NestedCreate.Relation>)
    requires rs != [] && KeysSet(data, links, rs[..|rs| - 1])
    ensures KeysSet(data, links, rs)
  {
    forall l | l in links ensures l.relation in rs { assert l.relation in rs[..|rs| - 1]; }
  }

  /** Once relation fields are gone only columns are left, when each nested entry belongs to a relation
      of the table and an outgoing relation has one target. */
  predicate EntriesBelong(rs: seq<NestedCreate.Relation>, tree: Tree) {
    forall f :: f in tree.data && !tree.data[f].Value? ==>
      exists r :: r in rs && r.relationField == f && (r.IsIncoming() || tree.data[f].CreateOne?)
  }

  lemma {:induction false} NestedEntriesAreOld(s: Tables, e: Engine, db: Db, rs: seq<NestedCreate.Relation>,
        tree: Tree, data: Data, f: FieldName)
    requires CreateTargets(s, e, db, rs, tree, data).Progress?
    ensures var p := CreateTargets(s, e, db, rs, tree, data);
      f in p.data && !p.data[f].Value? ==>
        f in data && p.data[f] == data[f] && forall r :: r in rs && HasTarget(tree, r) ==> f != r.relationField
  {
    if rs != [] {
      NestedEntriesAreOld(s, e, db, rs[..|rs| - 1], tree, data, f);
      assert rs == rs[..|rs| - 1] + [rs[|rs| - 1]];
    }
  }

  lemma OnlyColumnsAreInserted(s: Tables, e: Engine, db: Db, table: TableName, tree: Tree, given: Row, f: FieldName)
    requires EntriesBelong(Relations(s, table), tree)
    requires CreateTargets(s, e, db, Relations(s, table), tree, StartData(tree, given)).Progress?
    ensures var rs := Relations(s, table);
      var data := WithoutRelated(CreateTargets(s, e, db, rs, tree, StartData(tree, given)).data, rs);
      f in data ==> data[f].Value?
  {
    var rs := Relations(s, table);
    var p := CreateTargets(s, e, db, rs, tree, StartData(tree, given));
    NestedEntriesAreOld(s, e, db, rs, tree, StartData(tree, given), f);
    RemovedExactly(p.data, rs, f);
  }

  // ---- Keys name the rows made ----

  predicate SetsKey(links: seq<Link>, f: FieldName) {
    links != [] && (links[|links| - 1].relation.fromField == f || SetsKey(links[..|links| - 1], f))
  }

  predicate Linked(m: Made)
    decreases m
  {
    PointsAt(m.row, m.before) && PointedAtBy(m.row, m.after)
  }

  predicate PointsAt(row: Row, links: seq<Link>)
    decreases links
  {
    links == [] ||
    var l := links[|links| - 1];
    assert l.made < l;
    PointsAt(row, links[..|links| - 1]) && Get(row, l.relation.fromField) == Get(l.made.row, l.relation.toField) &&
      Linked(l.made)
  }

  /** A related row points back, unless it was given a target of its own for that relation. */
  predicate PointedAtBy(row: Row, links: seq<Link>)
    decreases links
  {
    links == [] ||
    var l := links[0];
    assert l.made < l;
    PointedAtBy(row, links[1..]) && Linked(l.made) &&
    (Get(l.made.row, l.relation.fromField) == Get(row, l.relation.toField) ||
     SetsKey(l.made.before, l.relation.fromField))
  }

  lemma {:induction false} FieldsAreApart(rs: seq<NestedCreate.Relation>, r: NestedCreate.Relation,
        q: NestedCreate.Relation)
    requires NamesApart(rs) && r in rs && q in rs
    ensures r.relationField != q.fromField
  {
    if r != rs[|rs| - 1] && q != rs[|rs| - 1] { FieldsAreApart(rs[..|rs| - 1], r, q); }
  }

  /** An entry for a foreign key that no relation field shadows reaches the row. */
  lemma KeyReachesRow(s: Tables, table: TableName, data: Data, row: Row, r: NestedCreate.Relation)
    requires NamesApart(Relations(s, table)) && r in Relations(s, table)
    requires Stores(s, table, Columns(WithoutRelated(data, Relations(s, table))), row)
    requires r.fromField in data && data[r.fromField].Value?
    ensures Get(row, r.fromField) == data[r.fromField].v
  {
    var rs := Relations(s, table);
    RemovedExactly(data, rs, r.fromField);
    forall q | q in rs ensures r.fromField != q.relationField { FieldsAreApart(rs, q, r); }
  }

  lemma {:induction false} AllPointAt(row: Row, links: seq<Link>)
    requires forall l :: l in links ==>
             Linked(l.made) && Get(row, l.relation.fromField) == Get(l.made.row, l.relation.toField)
    ensures PointsAt(row, links)
  {
    if links != [] { AllPointAt(row, links[..|links| - 1]); }
  }

  lemma SetsOneMore(links: seq<Link>, l: Link, f: FieldName)
    ensures SetsKey(links + [l], f) <==> SetsKey(links, f) || l.relation.fromField == f
  {
    assert (links + [l])[..|links|] == links;
  }

  lemma {:induction false} TargetIsLinked(s: Tables, e: Engine, db: Db, rs: seq<NestedCreate.Relation>, tree: Tree,
        data: Data, q: NestedCreate.Relation)
    requires q in rs && HasTarget(tree, q) && CreateTargets(s, e, db, rs, tree, data).Progress?
    ensures SetsKey(CreateTargets(s, e, db, rs, tree, data).links, q.fromField)
  {
    var front, r := rs[..|rs| - 1], rs[|rs| - 1];
    var before := CreateTargets(s, e, db, front, tree, data);
    if q in front {
      TargetIsLinked(s, e, db, front, tree, data, q);
    }
    if HasTarget(tree, r) {
      var o := Create(s, e, ApplyAll(db, before.log), r.relatedTable, tree.data[r.relationField].tree, map[]);
      SetsOneMore(before.links, Link(r, o.made), q.fromField);
    }
  }

  /** The key that a row was given by the row it belongs to stays, unless it has its own target there. */
  lemma GivenKeyStays(s: Tables, e: Engine, db: Db, table: TableName, tree: Tree, given: Row, r: NestedCreate.Relation)
    requires Honest(s, e) && NamesApart(Relations(s, table)) && r in Relations(s, table) && !r.IsIncoming()
    requires r.fromField in given && Create(s, e, db, table, tree, given).Done?
    ensures var m := Create(s, e, db, table, tree, given).made;
      Get(m.row, r.fromField) == given[r.fromField] || SetsKey(m.before, r.fromField)
  {
    var rs, data := Relations(s, table), StartData(tree, given);
    var p := CreateTargets(s, e, db, rs, tree, data);
    var where, db1 := Columns(WithoutRelated(p.data, rs)), ApplyAll(db, p.log);
    assert Stores(s, table, where, e(table, where, db1).value);
    if q :| q in rs && HasTarget(tree, q) && q.fromField == r.fromField {
      TargetIsLinked(s, e, db, rs, tree, data, q);
    } else {
      forall q | q in rs ensures r.fromField != q.relationField { FieldsAreApart(rs, q, r); }
      OtherFieldsKeep(s, e, db, rs, tree, data, r.fromField);
      KeyReachesRow(s, table, p.data, e(table, where, db1).value, r);
    }
  }

  /** The other side of an incoming relation is an outgoing relation to this table. */
  ghost predicate WellFormed(s: Tables) {
    WellNamed(s) &&
    forall table, r :: table in s && r in Relations(s, table) && r.IsIncoming() ==>
      Opposite(s, r).Some? && !Opposite(s, r).value.IsIncoming() && Opposite(s, r).value.relatedTable == table
  }

  ghost predicate JobFits(s: Tables, table: TableName, job: Job) {
    NamesApart(Relations(s, job.table)) && job.relation in Relations(s, job.table) && !job.relation.IsIncoming() &&
    job.relation.relatedTable == table
  }

  lemma {:induction false} JobsFit(s: Tables, table: TableName, rs: seq<NestedCreate.Relation>, tree: Tree, job: Job)
    requires WellFormed(s) && table in s && (forall r :: r in rs ==> r in Relations(s, table)) &&
             job in Jobs(s, rs, tree)
    ensures JobFits(s, table, job)
  {
    if rs != [] && job !in Jobs(s, rs[..|rs| - 1], tree) {
      var r := rs[|rs| - 1];
      assert r in rs && job in JobsOf(s, r, tree);
      assert job.table == r.relatedTable && job.relation == Opposite(s, r).value;
      assert r.relatedTable in s;
    } else if rs != [] {
      JobsFit(s, table, rs[..|rs| - 1], tree, job);
    }
  }

  lemma {:induction false} TargetsAreLinked(s: Tables, e: Engine, db: Db, rs: seq<NestedCreate.Relation>,
        tree: Tree, data: Data)
    requires WellFormed(s) && Honest(s, e) && CreateTargets(s, e, db, rs, tree, data).Progress?
    ensures forall l :: l in CreateTargets(s, e, db, rs, tree, data).links ==> Linked(l.made)
    decreases tree, 0, |rs|
  {
    if rs != [] {
      var front, r := rs[..|rs| - 1], rs[|rs| - 1];
      TargetsAreLinked(s, e, db, front, tree, data);
      if HasTarget(tree, r) {
        var before := CreateTargets(s, e, db, front, tree, data);
        KeysNameTheRowsMade(s, e, ApplyAll(db, before.log), r.relatedTable, tree.data[r.relationField].tree, map[]);
      }
    }
  }

  lemma {:induction false} JobsPointBack(s: Tables, e: Engine, db: Db, table: TableName, tree: Tree, jobs: seq<Job>,
        row: Row)
    requires WellFormed(s) && Honest(s, e) && forall i :: 0 <= i < |jobs| ==> jobs[i].tree < tree
    requires (forall job :: job in jobs ==> JobFits(s, table, job)) && RunJobs(s, e, db, tree, jobs, row).Related?
    ensures PointedAtBy(row, RunJobs(s, e, db, tree, jobs, row).links)
    decreases tree, 0, |jobs|
  {
    if jobs != [] {
      var front, job := jobs[..|jobs| - 1], jobs[|jobs| - 1];
      assert job in jobs;
      var o := Create(s, e, db, job.table, job.tree, KeyFor(job, row));
      var rest := RunJobs(s, e, ApplyAll(db, o.log), tree, front, row);
      KeysNameTheRowsMade(s, e, db, job.table, job.tree, KeyFor(job, row));
      GivenKeyStays(s, e, db, job.table, job.tree, KeyFor(job, row), job.relation);
      JobsPointBack(s, e, ApplyAll(db, o.log), table, tree, front, row);
      var links := [Link(job.relation, o.made)] + rest.links;
      assert links[1..] == rest.links;
    }
  }

  /** Every foreign key of a relation holds the key of the row made for it, at every level of the tree. */
  lemma {:induction false} KeysNameTheRowsMade(s: Tables, e: Engine, db: Db, table: TableName, tree: Tree, given: Row)
    requires WellFormed(s) && Honest(s, e) && Create(s, e, db, table, tree, given).Done?
    ensures Linked(Create(s, e, db, table, tree, given).made)
    decreases tree, 1
  {
    var rs, data := Relations(s, table), StartData(tree, given);
    var p := CreateTargets(s, e, db, rs, tree, data);
    var where, db1 := Columns(WithoutRelated(p.data, rs)), ApplyAll(db, p.log);
    var row := e(table, where, db1).value;
    assert NamesApart(rs);
    assert Stores(s, table, where, row);
    TargetsSetKeys(s, e, db, rs, tree, data);
    TargetsAreLinked(s, e, db, rs, tree, data);
    forall l | l in p.links ensures Get(row, l.relation.fromField) == Get(l.made.row, l.relation.toField) {
      KeyReachesRow(s, table, p.data, row, l.relation);
    }
    AllPointAt(row, p.links);
    forall job | job in Jobs(s, rs, tree) ensures JobFits(s, table, job) { JobsFit(s, table, rs, tree, job); }
    JobsPointBack(s, e, Applied(db1, Insert(table, row)), table, tree, Jobs(s, rs, tree), row);
  }
}
