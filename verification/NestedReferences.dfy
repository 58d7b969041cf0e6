/** No insert of a nested creation leaves a foreign key that points nowhere, and there is one row per node. */
module NestedReferences {
  import opened Types
  import opened Schema
  import opened Relational
  import opened NestedCreate
  import opened NestedIntegrity

  type Rel = NestedCreate.Relation

  /** Each foreign key of the row is null or names a row that is already there. */
  predicate RowGrounded(s: Tables, db: Db, table: TableName, row: Row) {
    forall r :: r in Relations(s, table) && !r.IsIncoming() ==> PointsSomewhere(db, r, Get(row, r.fromField))
  }

  predicate Sound(s: Tables, db: Db, log: seq<Insert>) {
    log == [] ||
    (Sound(s, db, log[..|log| - 1]) &&
     RowGrounded(s, ApplyAll(db, log[..|log| - 1]), log[|log| - 1].table, log[|log| - 1].row))
  }

  lemma {:induction false} SoundAppends(s: Tables, db: Db, a: seq<Insert>, b: seq<Insert>)
    requires Sound(s, db, a) && Sound(s, ApplyAll(db, a), b)
    ensures Sound(s, db, a + b)
  {
    if b == [] {
      assert a + b == a;
    } else {
      assert (a + b)[..|a + b| - 1] == a + b[..|b| - 1];
      SoundAppends(s, db, a, b[..|b| - 1]);
      ApplyAppends(db, a, b[..|b| - 1]);
    }
  }

  lemma SoundOneMore(s: Tables, db: Db, a: seq<Insert>, i: Insert)
    requires Sound(s, db, a) && RowGrounded(s, ApplyAll(db, a), i.table, i.row)
    ensures Sound(s, db, a + [i])
  {
    assert (a + [i])[..|a|] == a;
  }

  ghost predicate Grows(before: Db, after: Db) {
    forall table: TableName, row: Row :: row in RowsOf(before, table) ==> row in RowsOf(after, table)
  }

  lemma LogGrows(before: Db, db: Db, log: seq<Insert>)
    requires Grows(before, db)
    ensures Grows(before, ApplyAll(db, log))
  {
    forall table: TableName, row: Row | row in RowsOf(before, table) ensures row in RowsOf(ApplyAll(db, log), table) {
      RowsStay(db, log, table, row);
    }
  }

  lemma PointsStill(before: Db, after: Db, r: Rel, v: SqlValue)
    requires Grows(before, after) && PointsSomewhere(before, r, v)
    ensures PointsSomewhere(after, r, v)
  {
    if v != Null {
      var row :| row in RowsOf(before, r.relatedTable) && Get(row, r.toField) == v;
      assert row in RowsOf(after, r.relatedTable);
    }
  }

  // ---- The input ----

  /** A foreign key that the caller gives as a value is null or names a row that is there from the start. */
  predicate KeysGrounded(db: Db, rs: seq<Rel>, tree: Tree, given: set<FieldName>) {
    forall r :: r in rs && !r.IsIncoming() && r.fromField !in given && !HasTarget(tree, r) ==>
      (r.fromField in tree.data && tree.data[r.fromField].Value? ==> PointsSomewhere(db, r, tree.data[r.fromField].v))
  }

  predicate Grounded(s: Tables, db: Db, table: TableName, tree: Tree, given: set<FieldName>)
    decreases tree, 1
  {
    KeysGrounded(db, Relations(s, table), tree, given) &&
    TargetsGrounded(s, db, Relations(s, table), tree) &&
    JobsGrounded(s, db, tree, Jobs(s, Relations(s, table), tree))
  }

  predicate TargetsGrounded(s: Tables, db: Db, rs: seq<Rel>, tree: Tree)
    decreases tree, 0, |rs|
  {
    rs == [] ||
    var r := rs[|rs| - 1];
    TargetsGrounded(s, db, rs[..|rs| - 1], tree) &&
    (HasTarget(tree, r) ==> Grounded(s, db, r.relatedTable, tree.data[r.relationField].tree, {}))
  }

  predicate JobsGrounded(s: Tables, db: Db, tree: Tree, jobs: seq<Job>)
    requires forall i :: 0 <= i < |jobs| ==> jobs[i].tree < tree
    decreases tree, 0, |jobs|
  {
    jobs == [] ||
    var job := jobs[|jobs| - 1];
    JobsGrounded(s, db, tree, jobs[..|jobs| - 1]) && Grounded(s, db, job.table, job.tree, {job.relation.fromField})
  }

  predicate GivenGrounded(s: Tables, db: Db, table: TableName, given: Row) {
    forall r :: r in Relations(s, table) && !r.IsIncoming() && r.fromField in given ==>
      PointsSomewhere(db, r, given[r.fromField])
  }

  // ---- The rows that a row points at ----

  predicate KeyThere(db: Db, data: Data, r: Rel) {
    r.fromField in data && data[r.fromField].Value? && PointsSomewhere(db, r, data[r.fromField].v)
  }

  ghost predicate KeysThere(db: Db, data: Data, rs: seq<Rel>, tree: Tree) {
    forall r :: r in rs && HasTarget(tree, r) ==> KeyThere(db, data, r)
  }

  lemma KeysThereStay(before: Db, after: Db, data: Data, rs: seq<Rel>, tree: Tree)
    requires Grows(before, after) && KeysThere(before, data, rs, tree)
    ensures KeysThere(after, data, rs, tree)
  {
    forall r | r in rs && HasTarget(tree, r) ensures KeyThere(after, data, r) {
      assert KeyThere(before, data, r);
      PointsStill(before, after, r, data[r.fromField].v);
    }
  }

  lemma KeysThereOneMore(db: Db, data: Data, rs: seq<Rel>, tree: Tree, found: Row)
    requires rs != [] && NamesApart(rs) && HasTarget(tree, rs[|rs| - 1])
    requires KeysThere(db, data, rs[..|rs| - 1], tree) && found in RowsOf(db, rs[|rs| - 1].relatedTable)
    ensures KeysThere(db, WithKey(data, rs[|rs| - 1], found), rs, tree)
  {
    var front, last := rs[..|rs| - 1], rs[|rs| - 1];
    var after := WithKey(data, last, found);
    forall r | r in rs && HasTarget(tree, r) ensures KeyThere(db, after, r) {
      if r in front {
        assert KeyThere(db, data, r);
      } else {
        assert r == last;
      }
    }
  }

  lemma {:induction false} TargetsKeepReferences(s: Tables, e: Engine, start: Db, db: Db, rs: seq<Rel>, tree: Tree,
        data: Data)
    requires WellFormed(s) && Honest(s, e) && NamesApart(rs) && Grows(start, db) && TargetsGrounded(s, start, rs, tree)
    requires CreateTargets(s, e, db, rs, tree, data).Progress?
    ensures var p := CreateTargets(s, e, db, rs, tree, data);
      Sound(s, db, p.log) && KeysThere(ApplyAll(db, p.log), p.data, rs, tree)
    decreases tree, 0, |rs|
  {
    if rs != [] {
      var front, r := rs[..|rs| - 1], rs[|rs| - 1];
      TargetsKeepReferences(s, e, start, db, front, tree, data);
      var before := CreateTargets(s, e, db, front, tree, data);
      if HasTarget(tree, r) {
        TargetKeepsReferences(s, e, start, db, rs, tree, before);
      } else {
        assert rs == front + [r];
      }
    }
  }

  lemma {:induction false} TargetKeepsReferences(s: Tables, e: Engine, start: Db, db: Db, rs: seq<Rel>, tree: Tree,
        before: Progress)
    requires WellFormed(s) && Honest(s, e) && NamesApart(rs) && Grows(start, db) && TargetsGrounded(s, start, rs, tree)
    requires rs != [] && HasTarget(tree, rs[|rs| - 1]) && before.Progress?
    requires Sound(s, db, before.log) && KeysThere(ApplyAll(db, before.log), before.data, rs[..|rs| - 1], tree)
    requires Create(s, e, ApplyAll(db, before.log), rs[|rs| - 1].relatedTable,
             tree.data[rs[|rs| - 1].relationField].tree, map[]).Done?
    ensures var r := rs[|rs| - 1];
      var o := Create(s, e, ApplyAll(db, before.log), r.relatedTable, tree.data[r.relationField].tree, map[]);
      Sound(s, db, before.log + o.log) &&
        KeysThere(ApplyAll(db, before.log + o.log), WithKey(before.data, r, o.found), rs, tree)
    decreases tree, 0, 0
  {
    var r := rs[|rs| - 1];
    var child, mid := tree.data[r.relationField].tree, ApplyAll(db, before.log);
    var o := Create(s, e, mid, r.relatedTable, child, map[]);
    LogGrows(start, db, before.log);
    CreateKeepsReferences(s, e, start, mid, r.relatedTable, child, map[]);
    SoundAppends(s, db, before.log, o.log);
    ApplyAppends(db, before.log, o.log);
    LogGrows(mid, mid, o.log);
    FoundIsMade(s, e, mid, r.relatedTable, child, map[]);
    KeysThereStay(mid, ApplyAll(mid, o.log), before.data, rs[..|rs| - 1], tree);
    KeysThereOneMore(ApplyAll(mid, o.log), before.data, rs, tree, o.found);
  }

  // ---- The row itself ----

  lemma {:induction false} KeysAreApart(rs: seq<Rel>, r: Rel, q: Rel)
    requires NamesApart(rs) && r in rs && q in rs && r != q && !r.IsIncoming() && !q.IsIncoming()
    ensures r.fromField != q.fromField
  {
    if r != rs[|rs| - 1] && q != rs[|rs| - 1] { KeysAreApart(rs[..|rs| - 1], r, q); }
  }

  lemma KeyOfRow(s: Tables, e: Engine, db: Db, table: TableName, tree: Tree, given: Row, r: Rel, row: Row)
    requires NamesApart(Relations(s, table)) && r in Relations(s, table) && !r.IsIncoming() && !HasTarget(tree, r)
    requires CreateTargets(s, e, db, Relations(s, table), tree, StartData(tree, given)).Progress?
    requires Stores(s, table, Columns(WithoutRelated(CreateTargets(s, e, db, Relations(s, table), tree,
             StartData(tree, given)).data, Relations(s, table))), row)
    ensures Get(row, r.fromField) ==
            if r.fromField in given then given[r.fromField]
            else if r.fromField in tree.data && tree.data[r.fromField].Value? then tree.data[r.fromField].v
            else Null
  {
    var rs, data := Relations(s, table), StartData(tree, given);
    var p := CreateTargets(s, e, db, rs, tree, data);
    forall q | q in rs && HasTarget(tree, q) ensures r.fromField != q.relationField && r.fromField != q.fromField {
      FieldsAreApart(rs, q, r);
      KeysAreApart(rs, r, q);
    }
    OtherFieldsKeep(s, e, db, rs, tree, data, r.fromField);
    if r.fromField in data && data[r.fromField].Value? {
      KeyReachesRow(s, table, p.data, row, r);
    } else {
      RemovedExactly(p.data, rs, r.fromField);
    }
  }

  lemma RowIsGrounded(s: Tables, e: Engine, start: Db, db: Db, table: TableName, tree: Tree, given: Row, row: Row)
    requires NamesApart(Relations(s, table)) && Grows(start, db)
    requires KeysGrounded(start, Relations(s, table), tree, given.Keys) && GivenGrounded(s, db, table, given)
    requires CreateTargets(s, e, db, Relations(s, table), tree, StartData(tree, given)).Progress?
    requires var p := CreateTargets(s, e, db, Relations(s, table), tree, StartData(tree, given));
      KeysThere(ApplyAll(db, p.log), p.data, Relations(s, table), tree) &&
      Stores(s, table, Columns(WithoutRelated(p.data, Relations(s, table))), row)
    ensures RowGrounded(s, ApplyAll(db,
            CreateTargets(s, e, db, Relations(s, table), tree, StartData(tree, given)).log), table, row)
  {
    var rs := Relations(s, table);
    var p := CreateTargets(s, e, db, rs, tree, StartData(tree, given));
    var db1 := ApplyAll(db, p.log);
    LogGrows(db, db, p.log);
    LogGrows(start, db, p.log);
    forall r | r in rs && !r.IsIncoming() ensures PointsSomewhere(db1, r, Get(row, r.fromField)) {
      if HasTarget(tree, r) {
        assert KeyThere(db1, p.data, r);
        KeyReachesRow(s, table, p.data, row, r);
      } else {
        KeyOfRow(s, e, db, table, tree, given, r, row);
        if r.fromField in given {
          PointsStill(db, db1, r, given[r.fromField]);
        } else if r.fromField in tree.data && tree.data[r.fromField].Value? {
          PointsStill(start, db1, r, tree.data[r.fromField].v);
        }
      }
    }
  }

  // ---- The rows that point at it ----

  lemma JobIsGiven(s: Tables, db: Db, table: TableName, job: Job, row: Row)
    requires JobFits(s, table, job) && row in RowsOf(db, table)
    ensures GivenGrounded(s, db, job.table, KeyFor(job, row))
  {
    forall r | r in Relations(s, job.table) && !r.IsIncoming() && r.fromField in KeyFor(job, row)
      ensures PointsSomewhere(db, r, KeyFor(job, row)[r.fromField])
    {
      if r != job.relation { KeysAreApart(Relations(s, job.table), r, job.relation); }
    }
  }

  lemma StillThere(start: Db, db: Db, log: seq<Insert>, table: TableName, row: Row)
    requires Grows(start, db) && row in RowsOf(db, table)
    ensures Grows(start, ApplyAll(db, log)) && row in RowsOf(ApplyAll(db, log), table)
  {
    LogGrows(start, db, log);
    RowsStay(db, log, table, row);
  }

  lemma {:induction false} JobKeepsReferences(s: Tables, e: Engine, start: Db, db: Db, table: TableName, job: Job,
        row: Row)
    requires WellFormed(s) && Honest(s, e) && Grows(start, db) && row in RowsOf(db, table) && JobFits(s, table, job)
    requires Grounded(s, start, job.table, job.tree, {job.relation.fromField})
    ensures var o := Create(s, e, db, job.table, job.tree, KeyFor(job, row));
      o.Done? ==> Sound(s, db, o.log) && Grows(start, ApplyAll(db, o.log)) && row in RowsOf(ApplyAll(db, o.log), table)
    decreases job.tree, 2
  {
    var given := KeyFor(job, row);
    var o := Create(s, e, db, job.table, job.tree, given);
    if o.Done? {
      JobIsGiven(s, db, table, job, row);
      assert given.Keys == {job.relation.fromField};
      CreateKeepsReferences(s, e, start, db, job.table, job.tree, given);
      StillThere(start, db, o.log, table, row);
    }
  }

  lemma {:induction false} JobsKeepReferences(s: Tables, e: Engine, start: Db, db: Db, table: TableName, tree: Tree,
        jobs: seq<Job>, row: Row)
    requires WellFormed(s) && Honest(s, e) && Grows(start, db) && row in RowsOf(db, table)
    requires forall i :: 0 <= i < |jobs| ==> jobs[i].tree < tree
    requires forall job :: job in jobs ==> JobFits(s, table, job)
    requires JobsGrounded(s, start, tree, jobs) && RunJobs(s, e, db, tree, jobs, row).Related?
    ensures Sound(s, db, RunJobs(s, e, db, tree, jobs, row).log)
    decreases tree, 0, |jobs|
  {
    if jobs != [] {
      var front, job := jobs[..|jobs| - 1], jobs[|jobs| - 1];
      assert job in jobs;
      var o := Create(s, e, db, job.table, job.tree, KeyFor(job, row));
      JobStep(s, e, db, tree, jobs, row);
      JobKeepsReferences(s, e, start, db, table, job, row);
      JobsKeepReferences(s, e, start, ApplyAll(db, o.log), table, tree, front, row);
      SoundAppends(s, db, o.log, RunJobs(s, e, ApplyAll(db, o.log), tree, front, row).log);
    }
  }

  // ---- All of it ----

  /** When the keys that the caller gives by hand name rows that exist, no insert leaves a foreign key
      that points nowhere, at whatever point one stops. */
  lemma {:induction false} CreateKeepsReferences(s: Tables, e: Engine, start: Db, db: Db, table: TableName,
        tree: Tree, given: Row)
    requires WellFormed(s) && Honest(s, e) && Grows(start, db)
    requires Grounded(s, start, table, tree, given.Keys) && GivenGrounded(s, db, table, given)
    requires Create(s, e, db, table, tree, given).Done?
    ensures Sound(s, db, Create(s, e, db, table, tree, given).log)
    decreases tree, 1
  {
    var rs := Relations(s, table);
    assert NamesApart(rs);
    TargetsKeepReferences(s, e, start, db, rs, tree, StartData(tree, given));
    var p := CreateTargets(s, e, db, rs, tree, StartData(tree, given));
    var where, db1 := Columns(WithoutRelated(p.data, rs)), ApplyAll(db, p.log);
    var row := e(table, where, db1).value;
    assert Stores(s, table, where, row);
    RowIsGrounded(s, e, start, db, table, tree, given, row);
    InsertAndRelatedKeepReferences(s, e, start, db, table, tree, p.log, row);
  }

  lemma {:induction false} InsertAndRelatedKeepReferences(
      s: Tables, e: Engine, start: Db, db: Db, table: TableName, tree: Tree, log: seq<Insert>, row: Row)
    requires WellFormed(s) && Honest(s, e) && Grows(start, db) && Sound(s, db, log)
    requires RowGrounded(s, ApplyAll(db, log), table, row) &&
             JobsGrounded(s, start, tree, Jobs(s, Relations(s, table), tree))
    requires RunJobs(s, e, Applied(ApplyAll(db, log), Insert(table, row)), tree, Jobs(s, Relations(s, table), tree),
             row).Related?
    ensures var related := RunJobs(s, e, Applied(ApplyAll(db, log), Insert(table, row)), tree,
            Jobs(s, Relations(s, table), tree), row);
      Sound(s, db, log + [Insert(table, row)] + related.log)
    decreases tree, 0, |Jobs(s, Relations(s, table), tree)| + 1
  {
    var rs, i := Relations(s, table), Insert(table, row);
    var jobs := Jobs(s, rs, tree);
    SoundOneMore(s, db, log, i);
    assert (log + [i])[..|log|] == log;
    assert ApplyAll(db, log + [i]) == Applied(ApplyAll(db, log), i);
    LogGrows(start, db, log + [i]);
    forall job | job in jobs ensures JobFits(s, table, job) { JobsFit(s, table, rs, tree, job); }
    JobsKeepReferences(s, e, start, ApplyAll(db, log + [i]), table, tree, jobs, row);
    SoundAppends(s, db, log + [i], RunJobs(s, e, ApplyAll(db, log + [i]), tree, jobs, row).log);
  }

  // ---- One row per node ----

  function Nodes(s: Tables, table: TableName, tree: Tree): nat
    decreases tree, 1
  {
    1 + TargetNodes(s, Relations(s, table), tree) + JobNodes(s, tree, Jobs(s, Relations(s, table), tree))
  }

  function TargetNodes(s: Tables, rs: seq<Rel>, tree: Tree): nat
    decreases tree, 0, |rs|
  {
    if rs == [] then 0
    else
      var r := rs[|rs| - 1];
      TargetNodes(s, rs[..|rs| - 1], tree) +
      if HasTarget(tree, r) then Nodes(s, r.relatedTable, tree.data[r.relationField].tree) else 0
  }

  function JobNodes(s: Tables, tree: Tree, jobs: seq<Job>): nat
    requires forall i :: 0 <= i < |jobs| ==> jobs[i].tree < tree
    decreases tree, 0, |jobs|
  {
    if jobs == [] then 0
    else JobNodes(s, tree, jobs[..|jobs| - 1]) + Nodes(s, jobs[|jobs| - 1].table, jobs[|jobs| - 1].tree)
  }

  /** A value of the node that is not replaced by the key of another row. */
  predicate OwnValue(rs: seq<Rel>, tree: Tree, given: Row, f: FieldName) {
    f in tree.data && tree.data[f].Value? && f !in given &&
    forall r :: r in rs ==> f != r.relationField && (HasTarget(tree, r) ==> f != r.fromField)
  }

  predicate HoldsValues(rs: seq<Rel>, tree: Tree, given: Row, row: Row) {
    forall f :: f in tree.data ==> (OwnValue(rs, tree, given, f) ==> Get(row, f) == tree.data[f].v)
  }

  /** What was made has the shape of the input: a row for each node, in the table of its relation. */
  predicate Mirrors(s: Tables, table: TableName, tree: Tree, given: Row, m: Made)
    decreases tree, 1
  {
    m.table == table && HoldsValues(Relations(s, table), tree, given, m.row) &&
    MirrorsTargets(s, Relations(s, table), tree, m.before) &&
    MirrorsJobs(s, tree, Jobs(s, Relations(s, table), tree), m.row, m.after)
  }

  predicate MirrorsTargets(s: Tables, rs: seq<Rel>, tree: Tree, links: seq<Link>)
    decreases tree, 0, |rs|
  {
    if rs == [] then links == []
    else
      var r := rs[|rs| - 1];
      if HasTarget(tree, r) then
        links != [] && links[|links| - 1].relation == r &&
        MirrorsTargets(s, rs[..|rs| - 1], tree, links[..|links| - 1]) &&
        Mirrors(s, r.relatedTable, tree.data[r.relationField].tree, map[], links[|links| - 1].made)
      else MirrorsTargets(s, rs[..|rs| - 1], tree, links)
  }

  predicate MirrorsJobs(s: Tables, tree: Tree, jobs: seq<Job>, row: Row, links: seq<Link>)
    requires forall i :: 0 <= i < |jobs| ==> jobs[i].tree < tree
    decreases tree, 0, |jobs|
  {
    if jobs == [] then links == []
    else
      var job := jobs[|jobs| - 1];
      links != [] && links[0].relation == job.relation &&
      Mirrors(s, job.table, job.tree, KeyFor(job, row), links[0].made) &&
      MirrorsJobs(s, tree, jobs[..|jobs| - 1], row, links[1..])
  }

  lemma ValuesReachRow(s: Tables, e: Engine, db: Db, table: TableName, tree: Tree, given: Row, row: Row)
    requires CreateTargets(s, e, db, Relations(s, table), tree, StartData(tree, given)).Progress?
    requires Stores(s, table, Columns(WithoutRelated(CreateTargets(s, e, db, Relations(s, table), tree,
             StartData(tree, given)).data, Relations(s, table))), row)
    ensures HoldsValues(Relations(s, table), tree, given, row)
  {
    var rs, data := Relations(s, table), StartData(tree, given);
    var p := CreateTargets(s, e, db, rs, tree, data);
    forall f | f in tree.data && OwnValue(rs, tree, given, f) ensures Get(row, f) == tree.data[f].v {
      OtherFieldsKeep(s, e, db, rs, tree, data, f);
      RemovedExactly(p.data, rs, f);
    }
  }

  lemma {:induction false} TargetsMirror(s: Tables, e: Engine, db: Db, rs: seq<Rel>, tree: Tree, data: Data)
    requires Honest(s, e) && CreateTargets(s, e, db, rs, tree, data).Progress?
    ensures MirrorsTargets(s, rs, tree, CreateTargets(s, e, db, rs, tree, data).links)
    decreases tree, 0, |rs|
  {
    if rs != [] {
      var front, r := rs[..|rs| - 1], rs[|rs| - 1];
      TargetsMirror(s, e, db, front, tree, data);
      if HasTarget(tree, r) {
        var before := CreateTargets(s, e, db, front, tree, data);
        var child := tree.data[r.relationField].tree;
        CreateMirrors(s, e, ApplyAll(db, before.log), r.relatedTable, child, map[]);
        var links := CreateTargets(s, e, db, rs, tree, data).links;
        assert links[..|links| - 1] == before.links;
      }
    }
  }

  lemma {:induction false} JobsMirror(s: Tables, e: Engine, db: Db, tree: Tree, jobs: seq<Job>, row: Row)
    requires Honest(s, e) && forall i :: 0 <= i < |jobs| ==> jobs[i].tree < tree
    requires RunJobs(s, e, db, tree, jobs, row).Related?
    ensures MirrorsJobs(s, tree, jobs, row, RunJobs(s, e, db, tree, jobs, row).links)
    decreases tree, 0, |jobs|
  {
    if jobs != [] {
      var front, job := jobs[..|jobs| - 1], jobs[|jobs| - 1];
      var o := Create(s, e, db, job.table, job.tree, KeyFor(job, row));
      CreateMirrors(s, e, db, job.table, job.tree, KeyFor(job, row));
      JobsMirror(s, e, ApplyAll(db, o.log), tree, front, row);
      var rest := RunJobs(s, e, ApplyAll(db, o.log), tree, front, row);
      assert ([Link(job.relation, o.made)] + rest.links)[1..] == rest.links;
    }
  }

  /** Every node of the input becomes one row, whose values are those of the node. */
  lemma {:induction false} CreateMirrors(s: Tables, e: Engine, db: Db, table: TableName, tree: Tree, given: Row)
    requires Honest(s, e) && Create(s, e, db, table, tree, given).Done?
    ensures Mirrors(s, table, tree, given, Create(s, e, db, table, tree, given).made)
    decreases tree, 1
  {
    var rs, data := Relations(s, table), StartData(tree, given);
    var p := CreateTargets(s, e, db, rs, tree, data);
    var where, db1 := Columns(WithoutRelated(p.data, rs)), ApplyAll(db, p.log);
    var row := e(table, where, db1).value;
    assert Stores(s, table, where, row);
    TargetsMirror(s, e, db, rs, tree, data);
    JobsMirror(s, e, Applied(db1, Insert(table, row)), tree, Jobs(s, rs, tree), row);
    ValuesReachRow(s, e, db, table, tree, given, row);
  }

  lemma {:induction false} TargetsCount(s: Tables, rs: seq<Rel>, tree: Tree, links: seq<Link>)
    requires MirrorsTargets(s, rs, tree, links)
    ensures |FlatAll(links)| == TargetNodes(s, rs, tree)
    decreases tree, 0, |rs|
  {
    if rs != [] {
      var r := rs[|rs| - 1];
      if HasTarget(tree, r) {
        TargetsCount(s, rs[..|rs| - 1], tree, links[..|links| - 1]);
        MirrorsCount(s, r.relatedTable, tree.data[r.relationField].tree, map[], links[|links| - 1].made);
      } else {
        TargetsCount(s, rs[..|rs| - 1], tree, links);
      }
    }
  }

  lemma {:induction false} JobsCount(s: Tables, tree: Tree, jobs: seq<Job>, row: Row, links: seq<Link>)
    requires (forall i :: 0 <= i < |jobs| ==> jobs[i].tree < tree) && MirrorsJobs(s, tree, jobs, row, links)
    ensures |FlatAll(links)| == JobNodes(s, tree, jobs)
    decreases tree, 0, |jobs|
  {
    if jobs != [] {
      var job := jobs[|jobs| - 1];
      MirrorsCount(s, job.table, job.tree, KeyFor(job, row), links[0].made);
      JobsCount(s, tree, jobs[..|jobs| - 1], row, links[1..]);
      FlatOne(links[0]);
      FlatAppends([links[0]], links[1..]);
      assert links == [links[0]] + links[1..];
    }
  }

  lemma {:induction false} MirrorsCount(s: Tables, table: TableName, tree: Tree, given: Row, m: Made)
    requires Mirrors(s, table, tree, given, m)
    ensures |Flat(m)| == Nodes(s, table, tree)
    decreases tree, 1
  {
    TargetsCount(s, Relations(s, table), tree, m.before);
    JobsCount(s, tree, Jobs(s, Relations(s, table), tree), m.row, m.after);
  }

  /** Exactly one insert per node of the input. */
  lemma OneInsertPerNode(s: Tables, e: Engine, db: Db, table: TableName, tree: Tree, given: Row)
    requires Honest(s, e) && Create(s, e, db, table, tree, given).Done?
    ensures |Create(s, e, db, table, tree, given).log| == Nodes(s, table, tree)
  {
    CreateMirrors(s, e, db, table, tree, given);
    LogIsFlat(s, e, db, table, tree, given);
    MirrorsCount(s, table, tree, given, Create(s, e, db, table, tree, given).made);
  }

  // ---- What is made, in terms of the input alone ----

  /** The related tree is in the field of an incoming relation, alone or in a list. */
  predicate InField(tree: Tree, field: FieldName, t: Tree) {
    field in tree.data &&
    match tree.data[field]
    case Value(_) => false
    case CreateOne(u) => t == u
    case CreateMany(us) => t in us
  }

  function FieldCount(tree: Tree, field: FieldName): nat {
    if field !in tree.data then 0
    else
      match tree.data[field]
      case Value(_) => 0
      case CreateOne(_) => 1
      case CreateMany(us) => |us|
  }

  function RelatedCount(s: Tables, rs: seq<Rel>, tree: Tree): nat {
    if rs == [] then 0
    else
      var r := rs[|rs| - 1];
      RelatedCount(s, rs[..|rs| - 1], tree) +
      if r.IsIncoming() && Opposite(s, r).Some? then FieldCount(tree, r.relationField) else 0
  }

  /** The rows made afterwards are those in the fields of the incoming relations, each with the outgoing
      side of its relation, and as many. */
  lemma {:induction false} JobsAreInput(s: Tables, rs: seq<Rel>, tree: Tree, job: Job)
    ensures job in Jobs(s, rs, tree) <==>
            exists r :: r in rs && r.IsIncoming() && Opposite(s, r) == Some(job.relation) &&
              r.relatedTable == job.table && InField(tree, r.relationField, job.tree)
    ensures |Jobs(s, rs, tree)| == RelatedCount(s, rs, tree)
  {
    if rs != [] {
      var front, r := rs[..|rs| - 1], rs[|rs| - 1];
      assert rs == front + [r];
      JobsAreInput(s, front, tree, job);
      FieldJobs(s, r, tree, job);
    }
  }

  lemma FieldJobs(s: Tables, r: Rel, tree: Tree, job: Job)
    ensures job in JobsOf(s, r, tree) <==>
            r.IsIncoming() && Opposite(s, r) == Some(job.relation) && r.relatedTable == job.table &&
            InField(tree, r.relationField, job.tree)
    ensures |JobsOf(s, r, tree)| ==
            if r.IsIncoming() && Opposite(s, r).Some? then FieldCount(tree, r.relationField) else 0
  {
    if r.IsIncoming() && r.relationField in tree.data && Opposite(s, r).Some? &&
       tree.data[r.relationField].CreateMany? {
      var ts, jobs := tree.data[r.relationField].trees, JobsOf(s, r, tree);
      if job in jobs {
        var i :| 0 <= i < |jobs| && jobs[i] == job;
        assert ts[i] == job.tree;
      }
      if InField(tree, r.relationField, job.tree) && Opposite(s, r) == Some(job.relation) &&
         r.relatedTable == job.table {
        var i :| 0 <= i < |ts| && ts[i] == job.tree;
        assert jobs[i] == job;
      }
    }
  }

  /** The related tree was made, over this relation. */
  ghost predicate MadeOver(s: Tables, links: seq<Link>, r: Rel, table: TableName, t: Tree, given: Row) {
    exists l :: l in links && l.relation == r && Mirrors(s, table, t, given, l.made)
  }

  lemma {:induction false} TargetIsMade(s: Tables, rs: seq<Rel>, tree: Tree, links: seq<Link>, r: Rel)
    requires MirrorsTargets(s, rs, tree, links) && r in rs && !r.IsIncoming()
    requires r.relationField in tree.data && tree.data[r.relationField].CreateOne?
    ensures MadeOver(s, links, r, r.relatedTable, tree.data[r.relationField].tree, map[])
  {
    var front, last := rs[..|rs| - 1], rs[|rs| - 1];
    if HasTarget(tree, last) {
      assert links[|links| - 1] in links;
      if r != last {
        TargetIsMade(s, front, tree, links[..|links| - 1], r);
        assert forall l :: l in links[..|links| - 1] ==> l in links;
      }
    } else {
      TargetIsMade(s, front, tree, links, r);
    }
  }

  lemma {:induction false} JobIsMade(s: Tables, tree: Tree, jobs: seq<Job>, row: Row, links: seq<Link>, job: Job)
    requires forall i :: 0 <= i < |jobs| ==> jobs[i].tree < tree
    requires MirrorsJobs(s, tree, jobs, row, links) && job in jobs
    ensures MadeOver(s, links, job.relation, job.table, job.tree, KeyFor(job, row))
    decreases |jobs|
  {
    if job == jobs[|jobs| - 1] {
      assert links[0] in links;
    } else {
      JobIsMade(s, tree, jobs[..|jobs| - 1], row, links[1..], job);
      assert forall l :: l in links[1..] ==> l in links;
    }
  }

  lemma {:induction false} AsManyJobs(s: Tables, tree: Tree, jobs: seq<Job>, row: Row, links: seq<Link>)
    requires forall i :: 0 <= i < |jobs| ==> jobs[i].tree < tree
    requires MirrorsJobs(s, tree, jobs, row, links)
    ensures |links| == |jobs|
    decreases |jobs|
  {
    if jobs != [] { AsManyJobs(s, tree, jobs[..|jobs| - 1], row, links[1..]); }
  }

  /** Every related tree of the input is made: the one in the field of an outgoing relation before the row,
      each of those in the field of an incoming relation after it, with the key of the row filled in; and
      nothing more is made after it. */
  lemma InputIsMade(s: Tables, e: Engine, db: Db, table: TableName, tree: Tree, given: Row, r: Rel, t: Tree)
    requires Honest(s, e) && Create(s, e, db, table, tree, given).Done? && r in Relations(s, table)
    requires InField(tree, r.relationField, t)
    ensures var made := Create(s, e, db, table, tree, given).made;
      (!r.IsIncoming() && tree.data[r.relationField].CreateOne? ==>
         MadeOver(s, made.before, r, r.relatedTable, t, map[])) &&
      (r.IsIncoming() && Opposite(s, r).Some? ==>
         var o := Opposite(s, r).value;
         MadeOver(s, made.after, o, r.relatedTable, t, map[o.fromField := Get(made.row, o.toField)])) &&
      |made.after| == RelatedCount(s, Relations(s, table), tree)
  {
    var rs, made := Relations(s, table), Create(s, e, db, table, tree, given).made;
    CreateMirrors(s, e, db, table, tree, given);
    AsManyJobs(s, tree, Jobs(s, rs, tree), made.row, made.after);
    if r.IsIncoming() && Opposite(s, r).Some? {
      var job := Job(Opposite(s, r).value, r.relatedTable, t);
      JobsAreInput(s, rs, tree, job);
      JobIsMade(s, tree, Jobs(s, rs, tree), made.row, made.after, job);
    } else {
      JobsAreInput(s, rs, tree, Job(r, r.relatedTable, t));
      if !r.IsIncoming() && tree.data[r.relationField].CreateOne? {
        TargetIsMade(s, rs, tree, made.before, r);
      }
    }
  }

  // ---- When it succeeds ----

  lemma {:induction false} MatchingAppends(xs: seq<Row>, ys: seq<Row>, where: Row)
    ensures Matching(xs + ys, where) == Matching(xs, where) + Matching(ys, where)
  {
    if ys == [] {
      assert xs + ys == xs;
    } else {
      assert (xs + ys)[..|xs + ys| - 1] == xs + ys[..|ys| - 1];
      MatchingAppends(xs, ys[..|ys| - 1], where);
    }
  }

  /** The rows that a log inserts into a table. */
  function RowsInto(log: seq<Insert>, table: TableName): seq<Row> {
    if log == [] then []
    else RowsInto(log[..|log| - 1], table) + if log[|log| - 1].table == table then [log[|log| - 1].row] else []
  }

  lemma {:induction false} RowsAfterLog(db: Db, log: seq<Insert>, table: TableName)
    ensures RowsOf(ApplyAll(db, log), table) == RowsOf(db, table) + RowsInto(log, table)
  {
    if log == [] {
      assert RowsOf(db, table) + [] == RowsOf(db, table);
    } else {
      RowsAfterLog(db, log[..|log| - 1], table);
    }
  }

  lemma {:induction false} NoneMatch(rows: seq<Row>, where: Row)
    ensures Matching(rows, where) == [] <==> forall row :: row in rows ==> !Matches(row, where)
  {
    if rows != [] {
      NoneMatch(rows[..|rows| - 1], where);
      assert rows == rows[..|rows| - 1] + [rows[|rows| - 1]];
    }
  }

  lemma OnlyTheInserted(before: seq<Row>, row: Row, after: seq<Row>, where: Row)
    requires Matches(row, where)
    ensures |Matching(before + [row] + after, where)| == 1 <==>
            forall r :: r in before || r in after ==> !Matches(r, where)
  {
    MatchingAppends(before + [row], after, where);
    MatchingAppends(before, [row], where);
    assert [row][..0] == [];
    assert Matching([row], where) == [row];
    NoneMatch(before, where);
    NoneMatch(after, where);
  }

  function TargetsOf(s: Tables, e: Engine, db: Db, table: TableName, tree: Tree, given: Row): Progress {
    CreateTargets(s, e, db, Relations(s, table), tree, StartData(tree, given))
  }

  function WhereOf(s: Tables, table: TableName, targets: Progress): Row
    requires targets.Progress?
  {
    Columns(WithoutRelated(targets.data, Relations(s, table)))
  }

  function RelatedOf(s: Tables, e: Engine, before: Db, table: TableName, tree: Tree, row: Row): Related {
    RunJobs(s, e, Applied(before, Insert(table, row)), tree, Jobs(s, Relations(s, table), tree), row)
  }

  lemma CreateIsFinished(s: Tables, e: Engine, db: Db, table: TableName, tree: Tree, given: Row, row: Row)
    requires TargetsOf(s, e, db, table, tree, given).Progress?
    requires var p := TargetsOf(s, e, db, table, tree, given);
      e(table, WhereOf(s, table, p), ApplyAll(db, p.log)) == Some(row)
    ensures var p := TargetsOf(s, e, db, table, tree, given);
      var before := ApplyAll(db, p.log);
      var related := RelatedOf(s, e, before, table, tree, row);
      Create(s, e, db, table, tree, given).Done? <==>
      related.Related? &&
      |Matching(RowsOf(ApplyAll(Applied(before, Insert(table, row)), related.log), table), WhereOf(s, table, p))| == 1
  {
  }

  lemma FoundOnceExactlyWhen(before: Db, table: TableName, row: Row, log: seq<Insert>, where: Row)
    requires Matches(row, where)
    ensures |Matching(RowsOf(ApplyAll(Applied(before, Insert(table, row)), log), table), where)| == 1 <==>
            forall r :: r in RowsOf(before, table) || r in RowsInto(log, table) ==> !Matches(r, where)
  {
    RowsAfterLog(Applied(before, Insert(table, row)), log, table);
    OnlyTheInserted(RowsOf(before, table), row, RowsInto(log, table), where);
  }

  /** An accepted insert is still reported as an error, unless the rows that point at it can be made and
      neither a row that was there nor one of those holds all the values given. */
  lemma AcceptedInsertSucceedsExactlyWhen(
      s: Tables, e: Engine, db: Db, table: TableName, tree: Tree, given: Row, row: Row)
    requires Honest(s, e) && TargetsOf(s, e, db, table, tree, given).Progress?
    requires var p := TargetsOf(s, e, db, table, tree, given);
      e(table, WhereOf(s, table, p), ApplyAll(db, p.log)) == Some(row)
    ensures var p := TargetsOf(s, e, db, table, tree, given);
      var before, where := ApplyAll(db, p.log), WhereOf(s, table, p);
      var related := RelatedOf(s, e, before, table, tree, row);
      Create(s, e, db, table, tree, given).Done? <==>
      related.Related? &&
      forall r :: r in RowsOf(before, table) || r in RowsInto(related.log, table) ==> !Matches(r, where)
  {
    var p := TargetsOf(s, e, db, table, tree, given);
    var before, where := ApplyAll(db, p.log), WhereOf(s, table, p);
    assert Stores(s, table, where, e(table, where, before).value);
    CreateIsFinished(s, e, db, table, tree, given, row);
    var related := RelatedOf(s, e, before, table, tree, row);
    if related.Related? {
      FoundOnceExactlyWhen(before, table, row, related.log, where);
    }
  }

  /** A row like one that is there already cannot be created, though it is inserted. */
  lemma EqualRowIsAnError(row: Row)
    requires row == map["title" := Text("x")]
    ensures var s: Tables := map["Post" := TableSchema(["title"], [])];
      var e: Engine := (table, data, db) => Some(data);
      var tree := Tree(map["title" := Value(Text("x"))]);
      Honest(s, e) && Create(s, e, map[], "Post", tree, map[]).Done? &&
      Create(s, e, map["Post" := [row]], "Post", tree, map[]).Failed?
  {
    var s: Tables := map["Post" := TableSchema(["title"], [])];
    var e: Engine := (table, data, db) => Some(data);
    var tree := Tree(map["title" := Value(Text("x"))]);
    var db: Db := map["Post" := [row]];
    assert Relations(s, "Post") == [];
    var data := StartData(tree, map[]);
    assert data == tree.data;
    assert Columns(data) == row;
    assert Honest(s, e);
    AcceptedInsertSucceedsExactlyWhen(s, e, map[], "Post", tree, map[], row);
    AcceptedInsertSucceedsExactlyWhen(s, e, db, "Post", tree, map[], row);
    assert row in RowsOf(db, "Post") && Matches(row, row);
  }
}
