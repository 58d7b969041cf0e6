/** The steps of nested creation on a database that changes, as in
    clients/typescript/src/client/model/table.ts. */
module NestedStore {
  import opened Types
  import opened Schema
  import opened Relational
  import opened NestedCreate

  type Rel = NestedCreate.Relation

  class Store {
    var db: Db

    constructor (db: Db)
      ensures this.db == db
    {
      this.db := db;
    }

    /** Creates the rows that the new row will point at, one relation after the other. */
    method CreateOutgoing(s: Tables, e: Engine, rs: seq<Rel>, tree: Tree, start: Data)
      returns (ok: bool, data: Data, p: Progress)
      modifies this
      ensures p == CreateTargets(s, e, old(db), rs, tree, start)
      ensures ok <==> p.Progress?
      ensures ok ==> db == ApplyAll(old(db), p.log) && data == p.data
      decreases tree, 0
    {
      data, p := start, Progress([], start, []);
      for i := 0 to |rs|
        invariant p == CreateTargets(s, e, old(db), rs[..i], tree, start)
        invariant p.Progress? && db == ApplyAll(old(db), p.log) && data == p.data
      {
        var rel := rs[i];
        TargetStep(s, e, old(db), rs, tree, start, i);
        if HasTarget(tree, rel) {
          ghost var log := p.log;
          var created := Create(s, e, rel.relatedTable, tree.data[rel.relationField].tree, map[]);
          if created.Failed? {
            StuckStays(s, e, old(db), rs, tree, start, i + 1);
            return false, data, Stuck;
          }
          ApplyAppends(old(db), log, created.log);
          data := (data - {rel.relationField})[rel.fromField := Value(Get(created.found, rel.toField))];
          p := Progress(p.log + created.log, data, p.links + [Link(rel, created.made)]);
        }
      }
      assert rs[..|rs|] == rs;
      ok := true;
    }

    /** Takes the relation fields of incoming relations out and remembers what they ask for. */
    method CollectRelated(s: Tables, rs: seq<Rel>, tree: Tree, start: Data) returns (data: Data, jobs: seq<Job>)
      ensures data == WithoutRelated(start, rs) && jobs == Jobs(s, rs, tree)
    {
      data, jobs := start, [];
      for i := 0 to |rs|
        invariant data == WithoutRelated(start, rs[..i]) && jobs == Jobs(s, rs[..i], tree)
      {
        assert rs[..i + 1][..i] == rs[..i];
        if rs[i].IsIncoming() {
          data := data - {rs[i].relationField};
          jobs := jobs + JobsOf(s, rs[i], tree);
        }
      }
      assert rs[..|rs|] == rs;
    }

    /** Creates the related rows, the last one remembered first. */
    method MakeRelatedObjects(s: Tables, e: Engine, tree: Tree, jobs: seq<Job>, row: Row) returns (related: Related)
      requires forall i :: 0 <= i < |jobs| ==> jobs[i].tree < tree
      modifies this
      ensures related == RunJobs(s, e, old(db), tree, jobs, row)
      ensures related.Related? ==> db == ApplyAll(old(db), related.log)
      decreases tree, 0, |jobs|
    {
      if jobs == [] {
        return Related([], []);
      }
      var job := jobs[|jobs| - 1];
      JobStep(s, e, db, tree, jobs, row);
      var created := Create(s, e, job.table, job.tree, KeyFor(job, row));
      if created.Failed? {
        return NotMade;
      }
      var rest := MakeRelatedObjects(s, e, tree, jobs[..|jobs| - 1], row);
      if rest.NotMade? {
        return NotMade;
      }
      ApplyAppends(old(db), created.log, rest.log);
      related := Related(created.log + rest.log, [Link(job.relation, created.made)] + rest.links);
    }

    method Create(s: Tables, e: Engine, table: TableName, tree: Tree, given: Row) returns (o: Outcome)
      modifies this
      ensures o == NestedCreate.Create(s, e, old(db), table, tree, given)
      ensures o.Done? ==> db == ApplyAll(old(db), o.log)
      decreases tree, 1
    {
      var rs := Relations(s, table);
      var ok, data, p := CreateOutgoing(s, e, rs, tree, StartData(tree, given));
      if !ok {
        return Failed;
      }
      var columns, jobs := CollectRelated(s, rs, tree, data);
      var where := Columns(columns);
      var inserted := e(table, where, db);
      if inserted.None? {
        return Failed;
      }
      var row := inserted.value;
      db := db[table := RowsOf(db, table) + [row]];
      var related := MakeRelatedObjects(s, e, tree, jobs, row);
      if related.NotMade? {
        return Failed;
      }
      var found := Matching(RowsOf(db, table), where);
      if |found| != 1 {
        return Failed;
      }
      ThreeParts(old(db), p.log, Insert(table, row), related.log);
      o := Done(p.log + [Insert(table, row)] + related.log, Made(table, row, p.links, related.links), found[0]);
    }
  }

  lemma {:induction false} StuckStays(s: Tables, e: Engine, db: Db, rs: seq<Rel>, tree: Tree, data: Data, n: nat)
    requires n <= |rs| && CreateTargets(s, e, db, rs[..n], tree, data).Stuck?
    ensures CreateTargets(s, e, db, rs, tree, data).Stuck?
  {
    if n == |rs| {
      assert rs[..n] == rs;
    } else {
      assert rs[..|rs| - 1][..n] == rs[..n];
      StuckStays(s, e, db, rs[..|rs| - 1], tree, data, n);
    }
  }
}
