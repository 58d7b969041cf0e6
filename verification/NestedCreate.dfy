/** Creating a row together with the rows it is related to, as in
    clients/typescript/src/client/model/table.ts. */
module NestedCreate {
  import opened Types
  import opened Schema
  import opened Relational

  type Relation = Schema.Relation

  // ---- Inserts ----

  datatype Insert = Insert(table: TableName, row: Row)

  function Applied(db: Db, i: Insert): Db {
    db[i.table := RowsOf(db, i.table) + [i.row]]
  }

  function ApplyAll(db: Db, log: seq<Insert>): Db {
    if log == [] then db else Applied(ApplyAll(db, log[..|log| - 1]), log[|log| - 1])
  }

  lemma {:induction false} ApplyAppends(db: Db, a: seq<Insert>, b: seq<Insert>)
    ensures ApplyAll(db, a + b) == ApplyAll(ApplyAll(db, a), b)
  {
    if b == [] {
      assert a + b == a;
    } else {
      assert (a + b)[..|a + b| - 1] == a + b[..|b| - 1];
      ApplyAppends(db, a, b[..|b| - 1]);
    }
  }

  lemma ThreeParts(db: Db, a: seq<Insert>, i: Insert, b: seq<Insert>)
    ensures ApplyAll(db, a + [i] + b) == ApplyAll(Applied(ApplyAll(db, a), i), b)
  {
    assert (a + [i])[..|a|] == a;
    ApplyAppends(db, a + [i], b);
  }

  /** The database as this code sees it: it returns the stored row, or None when it refuses the insert. */
  type Engine = (TableName, Row, Db) -> Option<Row>

  // ---- The input and what is made of it ----

  datatype Entry = Value(v: SqlValue) | CreateOne(tree: Tree) | CreateMany(trees: seq<Tree>)

  type Data = map<FieldName, Entry>

  datatype Tree = Tree(data: Data)

  /** A row that was made, the rows made before it that it points at, and those made after it that point at it. */
  datatype Made = Made(table: TableName, row: Row, before: seq<Link>, after: seq<Link>)

  /** The relation is the outgoing side, which names both fields. */
  datatype Link = Link(relation: Relation, made: Made)

  datatype Outcome = Failed | Done(log: seq<Insert>, made: Made, found: Row)

  datatype Progress = Stuck | Progress(log: seq<Insert>, data: Data, links: seq<Link>)

  datatype Job = Job(relation: Relation, table: TableName, tree: Tree)

  datatype Related = NotMade | Related(log: seq<Insert>, links: seq<Link>)

  function Columns(data: Data): Row {
    map f | f in data && data[f].Value? :: data[f].v
  }

  function StartData(tree: Tree, given: Row): Data {
    tree.data + map f | f in given :: Value(given[f])
  }

  predicate HasTarget(tree: Tree, r: Relation) {
    !r.IsIncoming() && r.relationField in tree.data && tree.data[r.relationField].CreateOne?
  }

  /** The relation field goes, and the foreign key takes the key of the created row. */
  function WithKey(data: Data, r: Relation, target: Row): Data {
    (data - {r.relationField})[r.fromField := Value(Get(target, r.toField))]
  }

  function JobsOf(s: Tables, r: Relation, tree: Tree): (jobs: seq<Job>)
    ensures forall i :: 0 <= i < |jobs| ==> jobs[i].tree < tree
  {
    if !r.IsIncoming() || r.relationField !in tree.data || Opposite(s, r).None? then []
    else
      match tree.data[r.relationField]
      case Value(_) => []
      case CreateOne(t) => [Job(Opposite(s, r).value, r.relatedTable, t)]
      case CreateMany(ts) => seq(|ts|, i requires 0 <= i < |ts| => Job(Opposite(s, r).value, r.relatedTable, ts[i]))
  }

  /** The rows that will point at this one, in the order in which they are come across. */
  function Jobs(s: Tables, rs: seq<Relation>, tree: Tree): (jobs: seq<Job>)
    ensures forall i :: 0 <= i < |jobs| ==> jobs[i].tree < tree
  {
    if rs == [] then [] else Jobs(s, rs[..|rs| - 1], tree) + JobsOf(s, rs[|rs| - 1], tree)
  }

  function WithoutRelated(data: Data, rs: seq<Relation>): Data {
    if rs == [] then data
    else
      var rest := WithoutRelated(data, rs[..|rs| - 1]);
      if rs[|rs| - 1].IsIncoming() then rest - {rs[|rs| - 1].relationField} else rest
  }

  function KeyFor(job: Job, row: Row): Row {
    map[job.relation.fromField := Get(row, job.relation.toField)]
  }

  // ---- Creating ----

  function CreateTargets(s: Tables, e: Engine, db: Db, rs: seq<Relation>, tree: Tree, data: Data): Progress
    decreases tree, 0, |rs|
  {
    if rs == [] then Progress([], data, [])
    else
      var before := CreateTargets(s, e, db, rs[..|rs| - 1], tree, data);
      var r := rs[|rs| - 1];
      if before.Stuck? || !HasTarget(tree, r) then before
      else
        var o := Create(s, e, ApplyAll(db, before.log), r.relatedTable, tree.data[r.relationField].tree, map[]);
        if o.Failed? then Stuck
        else Progress(before.log + o.log, WithKey(before.data, r, o.found), before.links + [Link(r, o.made)])
  }

  /** The last job comes first: each closure wraps the one before it. */
  function RunJobs(s: Tables, e: Engine, db: Db, tree: Tree, jobs: seq<Job>, row: Row): Related
    requires forall i :: 0 <= i < |jobs| ==> jobs[i].tree < tree
    decreases tree, 0, |jobs|
  {
    if jobs == [] then Related([], [])
    else
      var job := jobs[|jobs| - 1];
      var o := Create(s, e, db, job.table, job.tree, KeyFor(job, row));
      if o.Failed? then NotMade
      else
        var rest := RunJobs(s, e, ApplyAll(db, o.log), tree, jobs[..|jobs| - 1], row);
        if rest.NotMade? then NotMade else Related(o.log + rest.log, [Link(job.relation, o.made)] + rest.links)
  }

  function Finished(table: TableName, targets: Progress, where: Row, row: Row, related: Related,
    rows: seq<Row>): Outcome
    requires targets.Progress? && related.Related?
  {
    var found := Matching(rows, where);
    if |found| != 1 then Failed
    else Done(targets.log + [Insert(table, row)] + related.log, Made(table, row, targets.links, related.links),
      found[0])
  }

  /** `given` holds the foreign key that the row this one belongs to has filled in. */
  function Create(s: Tables, e: Engine, db: Db, table: TableName, tree: Tree, given: Row): Outcome
    decreases tree, 1
  {
    var rs := Relations(s, table);
    var targets := CreateTargets(s, e, db, rs, tree, StartData(tree, given));
    if targets.Stuck? then Failed
    else
      var where := Columns(WithoutRelated(targets.data, rs));
      var db1 := ApplyAll(db, targets.log);
      var row := e(table, where, db1);
      if row.None? then Failed
      else
        var db2 := Applied(db1, Insert(table, row.value));
        var related := RunJobs(s, e, db2, tree, Jobs(s, rs, tree), row.value);
        if related.NotMade? then Failed
        else Finished(table, targets, where, row.value, related, RowsOf(ApplyAll(db2, related.log), table))
  }

  lemma TargetStep(s: Tables, e: Engine, db: Db, rs: seq<Relation>, tree: Tree, data: Data, i: nat)
    requires i < |rs| && CreateTargets(s, e, db, rs[..i], tree, data).Progress?
    ensures var p := CreateTargets(s, e, db, rs[..i], tree, data);
      CreateTargets(s, e, db, rs[..i + 1], tree, data) ==
      if !HasTarget(tree, rs[i]) then p
      else
        var o := Create(s, e, ApplyAll(db, p.log), rs[i].relatedTable, tree.data[rs[i].relationField].tree, map[]);
        if o.Failed? then Stuck
        else Progress(p.log + o.log, WithKey(p.data, rs[i], o.found), p.links + [Link(rs[i], o.made)])
  {
    assert rs[..i + 1][..i] == rs[..i];
  }

  lemma JobStep(s: Tables, e: Engine, db: Db, tree: Tree, jobs: seq<Job>, row: Row)
    requires jobs != [] && forall i :: 0 <= i < |jobs| ==> jobs[i].tree < tree
    ensures var front := jobs[..|jobs| - 1]; forall i :: 0 <= i < |front| ==> front[i].tree < tree
    ensures var job := jobs[|jobs| - 1];
      var o := Create(s, e, db, job.table, job.tree, KeyFor(job, row));
      RunJobs(s, e, db, tree, jobs, row) ==
      if o.Failed? then NotMade
      else
        var rest := RunJobs(s, e, ApplyAll(db, o.log), tree, jobs[..|jobs| - 1], row);
        if rest.NotMade? then NotMade else Related(o.log + rest.log, [Link(job.relation, o.made)] + rest.links)
  {
  }

  // ---- Order ----

  /** First what a row points at, then the row, then what points at it. */
  function Flat(m: Made): seq<Insert>
    decreases m
  {
    FlatAll(m.before) + [Insert(m.table, m.row)] + FlatAll(m.after)
  }

  function FlatAll(links: seq<Link>): seq<Insert>
    decreases links
  {
    if links == [] then []
    else
      var last := links[|links| - 1];
      assert last.made < last;
      FlatAll(links[..|links| - 1]) + Flat(last.made)
  }

  lemma {:induction false} FlatAppends(xs: seq<Link>, ys: seq<Link>)
    ensures FlatAll(xs + ys) == FlatAll(xs) + FlatAll(ys)
  {
    if ys == [] {
      assert xs + ys == xs;
    } else {
      assert (xs + ys)[..|xs + ys| - 1] == xs + ys[..|ys| - 1];
      FlatAppends(xs, ys[..|ys| - 1]);
    }
  }

  lemma FlatOne(l: Link)
    ensures FlatAll([l]) == Flat(l.made)
  {
    assert [l][..0] == [];
  }

  lemma {:induction false} TargetsAreFlat(s: Tables, e: Engine, db: Db, rs: seq<Relation>, tree: Tree, data: Data)
    requires CreateTargets(s, e, db, rs, tree, data).Progress?
    ensures var p := CreateTargets(s, e, db, rs, tree, data); p.log == FlatAll(p.links)
    decreases tree, 0, |rs|
  {
    if rs != [] {
      var r := rs[|rs| - 1];
      TargetsAreFlat(s, e, db, rs[..|rs| - 1], tree, data);
      if HasTarget(tree, r) {
        var before := CreateTargets(s, e, db, rs[..|rs| - 1], tree, data);
        LogIsFlat(s, e, ApplyAll(db, before.log), r.relatedTable, tree.data[r.relationField].tree, map[]);
      }
    }
  }

  lemma {:induction false} JobsAreFlat(s: Tables, e: Engine, db: Db, tree: Tree, jobs: seq<Job>, row: Row)
    requires forall i :: 0 <= i < |jobs| ==> jobs[i].tree < tree
    requires RunJobs(s, e, db, tree, jobs, row).Related?
    ensures var p := RunJobs(s, e, db, tree, jobs, row); p.log == FlatAll(p.links)
    decreases tree, 0, |jobs|
  {
    if jobs != [] {
      var job := jobs[|jobs| - 1];
      var o := Create(s, e, db, job.table, job.tree, KeyFor(job, row));
      var rest := RunJobs(s, e, ApplyAll(db, o.log), tree, jobs[..|jobs| - 1], row);
      LogIsFlat(s, e, db, job.table, job.tree, KeyFor(job, row));
      JobsAreFlat(s, e, ApplyAll(db, o.log), tree, jobs[..|jobs| - 1], row);
      FlatOne(Link(job.relation, o.made));
      FlatAppends([Link(job.relation, o.made)], rest.links);
    }
  }

  /** The inserts happen in that order: each row after all it points at and before all that point at it. */
  lemma {:induction false} LogIsFlat(s: Tables, e: Engine, db: Db, table: TableName, tree: Tree, given: Row)
    requires Create(s, e, db, table, tree, given).Done?
    ensures var o := Create(s, e, db, table, tree, given); o.log == Flat(o.made)
    decreases tree, 1
  {
    var rs := Relations(s, table);
    TargetsAreFlat(s, e, db, rs, tree, StartData(tree, given));
    var targets := CreateTargets(s, e, db, rs, tree, StartData(tree, given));
    var db1 := ApplyAll(db, targets.log);
    var row := e(table, Columns(WithoutRelated(targets.data, rs)), db1).value;
    JobsAreFlat(s, e, Applied(db1, Insert(table, row)), tree, Jobs(s, rs, tree), row);
  }
}
