/** Turning transactions into a stream of operations and back, as in
    clients/typescript/src/satellite/client.ts. */
module Stream {
  import opened Types
  import opened RowCodec
  import opened Messages

  type RelationMap = map<nat, Relation>

  // ---- Outbound: a transaction as operations ----

  function RowData(codec: Codec, rec: Option<Row>, columns: seq<Column>): Option<SatOpRow> {
    if rec.None? then None else Some(Serialized(codec, rec.value, columns))
  }

  function ChangeToOp(codec: Codec, c: Change, relations: RelationMap): SatTransOp
    requires c.relation.id in relations
  {
    var relation := relations[c.relation.id];
    var record, oldRecord := RowData(codec, c.record, relation.columns), RowData(codec, c.oldRecord, relation.columns);
    match c.optype
    case DELETE => NO_OP.(delete := Some(SatOpDelete(relation.id, oldRecord, c.tags)))
    case INSERT => NO_OP.(insert := Some(SatOpInsert(relation.id, record, c.tags)))
    case UPDATE => NO_OP.(update := Some(SatOpUpdate(relation.id, record, oldRecord, c.tags)))
  }

  /** The map of the sender holds each relation of the transaction under its own number. */
  predicate Sendable(t: Transaction, relations: RelationMap) {
    0 <= t.commitTimestamp &&
    forall i :: 0 <= i < |t.changes| ==>
      t.changes[i].relation.id in relations && relations[t.changes[i].relation.id].id == t.changes[i].relation.id
  }

  function ChangesToOps(codec: Codec, changes: seq<Change>, relations: RelationMap): seq<SatTransOp>
    requires forall i :: 0 <= i < |changes| ==> changes[i].relation.id in relations
  {
    seq(|changes|, i requires 0 <= i < |changes| => ChangeToOp(codec, changes[i], relations))
  }

  const COMMIT_OP := NO_OP.(commit := Some(SatOpCommit(0, "", [])))

  function BeginOp(t: Transaction): SatTransOp
    requires 0 <= t.commitTimestamp
  {
    NO_OP.(begin := Some(SatOpBegin(t.commitTimestamp, "", t.lsn, None, false)))
  }

  function TransactionOps(codec: Codec, t: Transaction, relations: RelationMap): seq<SatTransOp>
    requires Sendable(t, relations)
  {
    [BeginOp(t)] + ChangesToOps(codec, t.changes, relations) + [COMMIT_OP]
  }

  method SerializeChange(codec: Codec, change: Change, relations: RelationMap) returns (op: SatTransOp)
    requires change.relation.id in relations
    ensures op == ChangeToOp(codec, change, relations)
  {
    var relation := relations[change.relation.id];
    var record, oldRecord := None, None;
    if change.oldRecord.Some? {
      var row := SerializeRow(codec, change.oldRecord.value, relation.columns);
      oldRecord := Some(row);
    }
    if change.record.Some? {
      var row := SerializeRow(codec, change.record.value, relation.columns);
      record := Some(row);
    }
    match change.optype
    case DELETE => op := NO_OP.(delete := Some(SatOpDelete(relation.id, oldRecord, change.tags)));
    case INSERT => op := NO_OP.(insert := Some(SatOpInsert(relation.id, record, change.tags)));
    case UPDATE => op := NO_OP.(update := Some(SatOpUpdate(relation.id, record, oldRecord, change.tags)));
  }

  method TransactionToSatOpLog(codec: Codec, t: Transaction, relations: RelationMap) returns (log: SatOpLog)
    requires Sendable(t, relations)
    ensures log == SatOpLog(TransactionOps(codec, t, relations))
  {
    var ops := [BeginOp(t)];
    for i := 0 to |t.changes|
      invariant ops == [BeginOp(t)] + ChangesToOps(codec, t.changes, relations)[..i]
    {
      var op := SerializeChange(codec, t.changes[i], relations);
      ops := ops + [op];
    }
    log := SatOpLog(ops + [COMMIT_OP]);
  }

  // ---- Inbound: operations as transactions ----

  /** The receiving side: known relations, transactions begun and not yet committed, and those emitted. */
  datatype Inbound = Inbound(relations: RelationMap, open: seq<Transaction>, emitted: seq<Transaction>)

  /** None stands for an error: a missing relation, an unknown column type, or no open transaction. */
  function AddChange(s: Inbound, last: int, c: Change): Option<Inbound> {
    if 0 <= last < |s.open|
    then Some(s.(open := s.open[last := s.open[last].(changes := s.open[last].changes + [c])]))
    else None
  }

  function Begun(s: Inbound, begin: Option<SatOpBegin>): Inbound {
    if begin.None? then s
    else s.(open := s.open + [Transaction(begin.value.commitTimestamp, begin.value.lsn, [], begin.value.origin)])
  }

  function Committed(s: Inbound, last: int, commit: Option<SatOpCommit>): Option<Inbound> {
    if commit.None? then Some(s)
    else if 0 <= last < |s.open| then Some(s.(open := s.open[..last], emitted := s.emitted + [s.open[last]]))
    else None
  }

  function Inserted(codec: Codec, s: Inbound, last: int, op: Option<SatOpInsert>): Option<Inbound> {
    if op.None? then Some(s)
    else if op.value.relationId !in s.relations then None
    else
      var rel := s.relations[op.value.relationId];
      var record := DeserializeRow(codec, op.value.rowData, rel.columns);
      if record.None? then None else AddChange(s, last, Change(INSERT, rel, record.value, None, op.value.tags))
  }

  function Updated(codec: Codec, s: Inbound, last: int, op: Option<SatOpUpdate>): Option<Inbound> {
    if op.None? then Some(s)
    else if op.value.relationId !in s.relations then None
    else
      var rel := s.relations[op.value.relationId];
      var record := DeserializeRow(codec, op.value.rowData, rel.columns);
      var oldRecord := DeserializeRow(codec, op.value.oldRowData, rel.columns);
      if record.None? || oldRecord.None? then None
      else AddChange(s, last, Change(UPDATE, rel, record.value, oldRecord.value, op.value.tags))
  }

  function Deleted(codec: Codec, s: Inbound, last: int, op: Option<SatOpDelete>): Option<Inbound> {
    if op.None? then Some(s)
    else if op.value.relationId !in s.relations then None
    else
      var rel := s.relations[op.value.relationId];
      var oldRecord := DeserializeRow(codec, op.value.oldRowData, rel.columns);
      if oldRecord.None? then None else AddChange(s, last, Change(DELETE, rel, None, oldRecord.value, op.value.tags))
  }

  /** One operation: begin, commit, insert, update and delete are looked at in this order. */
  function Feed(codec: Codec, s: Inbound, op: SatTransOp): Option<Inbound> {
    var s1 := Begun(s, op.begin);
    var last := |s1.open| - 1;
    var s2 := Committed(s1, last, op.commit);
    if s2.None? then None
    else
      var s3 := Inserted(codec, s2.value, last, op.insert);
      if s3.None? then None
      else
        var s4 := Updated(codec, s3.value, last, op.update);
        if s4.None? then None else Deleted(codec, s4.value, last, op.delete)
  }

  /** What an operation in error leaves behind: the parts looked at before the one that threw. */
  function LeftBehind(codec: Codec, s: Inbound, op: SatTransOp): Inbound {
    var s1 := Begun(s, op.begin);
    var last := |s1.open| - 1;
    var s2 := Committed(s1, last, op.commit);
    if s2.None? then s1
    else
      var s3 := Inserted(codec, s2.value, last, op.insert);
      if s3.None? then s2.value
      else
        var s4 := Updated(codec, s3.value, last, op.update);
        if s4.None? then s3.value else s4.value
  }

  function FeedAll(codec: Codec, s: Inbound, ops: seq<SatTransOp>): Option<Inbound> {
    if ops == [] then Some(s)
    else
      var before := FeedAll(codec, s, ops[..|ops| - 1]);
      if before.None? then None else Feed(codec, before.value, ops[|ops| - 1])
  }

  predicate HasChange(op: SatTransOp) {
    op.insert.Some? || op.update.Some? || op.delete.Some?
  }

  /** The row of an operation cannot be read: its relation is unknown, or a value is of an unknown column type. */
  predicate Unreadable(s: Inbound, id: nat, row: Option<SatOpRow>) {
    id !in s.relations || (row.Some? && HasUnknownType(row.value, s.relations[id].columns))
  }

  /** An operation is an error exactly when it commits or changes without a transaction being open, changes
      what it commits, or has a row that cannot be read. */
  lemma ErrorsExactlyWhen(codec: Codec, s: Inbound, op: SatTransOp)
    ensures Feed(codec, s, op).None? <==>
            (s.open == [] && op.begin.None? && (op.commit.Some? || HasChange(op))) ||
            (op.commit.Some? && HasChange(op)) ||
            (op.insert.Some? && Unreadable(s, op.insert.value.relationId, op.insert.value.rowData)) ||
            (op.update.Some? && (Unreadable(s, op.update.value.relationId, op.update.value.rowData) ||
              Unreadable(s, op.update.value.relationId, op.update.value.oldRowData))) ||
            (op.delete.Some? && Unreadable(s, op.delete.value.relationId, op.delete.value.oldRowData))
  {
    RowsUnread(codec, s, op);
  }

  lemma RowsUnread(codec: Codec, s: Inbound, op: SatTransOp)
    ensures op.insert.Some? && op.insert.value.relationId in s.relations ==> var m := op.insert.value;
      DeserializeRow(codec, m.rowData, s.relations[m.relationId].columns).None? <==>
      Unreadable(s, m.relationId, m.rowData)
    ensures op.update.Some? && op.update.value.relationId in s.relations ==> var m := op.update.value;
      (DeserializeRow(codec, m.rowData, s.relations[m.relationId].columns).None? <==>
       Unreadable(s, m.relationId, m.rowData)) &&
      (DeserializeRow(codec, m.oldRowData, s.relations[m.relationId].columns).None? <==>
       Unreadable(s, m.relationId, m.oldRowData))
    ensures op.delete.Some? && op.delete.value.relationId in s.relations ==> var m := op.delete.value;
      DeserializeRow(codec, m.oldRowData, s.relations[m.relationId].columns).None? <==>
      Unreadable(s, m.relationId, m.oldRowData)
  {
    forall id: nat, row: Option<SatOpRow> | id in s.relations && row.Some?
      ensures DeserializeRow(codec, row, s.relations[id].columns).None? <==> Unreadable(s, id, row)
    {
      UnknownTypeIsError(codec, row.value, s.relations[id].columns);
    }
  }

  /** What an operation in error has done: the transaction it committed is emitted, nothing else is emitted or
      closed, and the relations stay. */
  lemma ErrorLeaves(codec: Codec, s: Inbound, op: SatTransOp)
    requires Feed(codec, s, op).None?
    ensures var left, begun := LeftBehind(codec, s, op), Begun(s, op.begin).open;
      left.relations == s.relations &&
      (op.commit.Some? && begun != [] ==>
         left.open == begun[..|begun| - 1] && left.emitted == s.emitted + [begun[|begun| - 1]]) &&
      (op.commit.None? || begun == [] ==> |left.open| == |begun| && left.emitted == s.emitted)
  {
  }

  /** `u` is `s` with at most the open transaction `last` changed. */
  predicate OnlyLast(s: Inbound, last: int, u: Inbound) {
    u.relations == s.relations && u.emitted == s.emitted && |u.open| == |s.open| &&
    forall i :: 0 <= i < |s.open| && i != last ==> u.open[i] == s.open[i]
  }

  lemma PartsStay(codec: Codec, s: Inbound, last: int, op: SatTransOp)
    ensures Inserted(codec, s, last, op.insert).Some? ==> OnlyLast(s, last, Inserted(codec, s, last, op.insert).value)
    ensures Updated(codec, s, last, op.update).Some? ==> OnlyLast(s, last, Updated(codec, s, last, op.update).value)
    ensures Deleted(codec, s, last, op.delete).Some? ==> OnlyLast(s, last, Deleted(codec, s, last, op.delete).value)
  {
  }

  lemma ChangesStay(codec: Codec, s: Inbound, op: SatTransOp)
    requires Feed(codec, s, op).Some?
    ensures var begun := Begun(s, op.begin);
      var committed := Committed(begun, |begun.open| - 1, op.commit);
      committed.Some? && OnlyLast(committed.value, |begun.open| - 1, Feed(codec, s, op).value)
  {
    var begun := Begun(s, op.begin);
    var last := |begun.open| - 1;
    var s2 := Committed(begun, last, op.commit).value;
    PartsStay(codec, s2, last, op);
    var s3 := Inserted(codec, s2, last, op.insert).value;
    PartsStay(codec, s3, last, op);
    PartsStay(codec, Updated(codec, s3, last, op.update).value, last, op);
  }

  /** An operation that is no error begins and ends at most one transaction: the others stay open as they are,
      and the one it commits is emitted after those before. */
  lemma OthersStay(codec: Codec, s: Inbound, op: SatTransOp)
    requires Feed(codec, s, op).Some?
    ensures var u, n := Feed(codec, s, op).value, |s.open|;
      var last := if op.begin.Some? then n else n - 1;
      u.relations == s.relations &&
      |u.open| == last + (if op.commit.Some? then 0 else 1) &&
      (forall i :: 0 <= i < last && i < |u.open| ==> u.open[i] == s.open[i]) &&
      (op.commit.None? ==> u.emitted == s.emitted) &&
      (op.commit.Some? ==>
         |u.emitted| == |s.emitted| + 1 && u.emitted[..|s.emitted|] == s.emitted &&
         var t := u.emitted[|s.emitted|];
         if op.begin.None? then t == s.open[last]
         else t == Transaction(op.begin.value.commitTimestamp, op.begin.value.lsn, [], op.begin.value.origin))
  {
    ChangesStay(codec, s, op);
  }

  datatype ReplicationStatus = STOPPED | STARTING | STOPPING | ACTIVE

  /** Operation `i` is the first in error, and `left` is what it leaves behind. */
  predicate FailsAt(codec: Codec, s: Inbound, ops: seq<SatTransOp>, i: nat, left: Inbound)
    requires i < |ops|
  {
    var before := FeedAll(codec, s, ops[..i]);
    before.Some? && Feed(codec, before.value, ops[i]).None? && left == LeftBehind(codec, before.value, ops[i])
  }

  class InboundReplication {
    var isReplicating: ReplicationStatus
    var relations: RelationMap
    var transactions: seq<Transaction>
    var emitted: seq<Transaction>

    constructor (status: ReplicationStatus, relations: RelationMap)
      ensures Now() == Inbound(relations, [], []) && isReplicating == status
    {
      isReplicating, this.relations, transactions, emitted := status, relations, [], [];
    }

    function Now(): Inbound
      reads this
    {
      Inbound(relations, transactions, emitted)
    }

    /** A relation message adds its relation under its number, or is an error outside active replication. */
    method HandleRelation(relation: Relation) returns (ok: bool)
      modifies `relations
      ensures ok <==> isReplicating == ACTIVE
      ensures Now() == if ok then old(Now()).(relations := old(relations)[relation.id := relation]) else old(Now())
    {
      if isReplicating != ACTIVE {
        return false;
      }
      relations := relations[relation.id := relation];
      ok := true;
    }

    method AppendChange(last: int, change: Change) returns (ok: bool)
      modifies `transactions
      ensures ok <==> AddChange(old(Now()), last, change).Some?
      ensures Now() == if ok then AddChange(old(Now()), last, change).value else old(Now())
    {
      if last < 0 || last >= |transactions| {
        return false;
      }
      var txn := transactions[last];
      transactions := transactions[last := txn.(changes := txn.changes + [change])];
      ok := true;
    }

    method ProcessInsert(codec: Codec, m: SatOpInsert, last: int) returns (ok: bool)
      modifies `transactions
      ensures ok <==> Inserted(codec, old(Now()), last, Some(m)).Some?
      ensures Now() == if ok then Inserted(codec, old(Now()), last, Some(m)).value else old(Now())
    {
      if m.relationId !in relations {
        return false;
      }
      var rel := relations[m.relationId];
      var record := DeserializeRow(codec, m.rowData, rel.columns);
      if record.None? {
        return false;
      }
      ok := AppendChange(last, Change(INSERT, rel, record.value, None, m.tags));
    }

    method ProcessUpdate(codec: Codec, m: SatOpUpdate, last: int) returns (ok: bool)
      modifies `transactions
      ensures ok <==> Updated(codec, old(Now()), last, Some(m)).Some?
      ensures Now() == if ok then Updated(codec, old(Now()), last, Some(m)).value else old(Now())
    {
      if m.relationId !in relations {
        return false;
      }
      var rel := relations[m.relationId];
      var record := DeserializeRow(codec, m.rowData, rel.columns);
      var oldRecord := DeserializeRow(codec, m.oldRowData, rel.columns);
      if record.None? || oldRecord.None? {
        return false;
      }
      ok := AppendChange(last, Change(UPDATE, rel, record.value, oldRecord.value, m.tags));
    }

    method ProcessDelete(codec: Codec, m: SatOpDelete, last: int) returns (ok: bool)
      modifies `transactions
      ensures ok <==> Deleted(codec, old(Now()), last, Some(m)).Some?
      ensures Now() == if ok then Deleted(codec, old(Now()), last, Some(m)).value else old(Now())
    {
      if m.relationId !in relations {
        return false;
      }
      var rel := relations[m.relationId];
      var oldRecord := DeserializeRow(codec, m.oldRowData, rel.columns);
      if oldRecord.None? {
        return false;
      }
      ok := AppendChange(last, Change(DELETE, rel, None, oldRecord.value, m.tags));
    }

    method ProcessOp(codec: Codec, op: SatTransOp) returns (ok: bool)
      modifies `transactions, `emitted
      ensures ok <==> Feed(codec, old(Now()), op).Some?
      ensures Now() == if ok then Feed(codec, old(Now()), op).value else LeftBehind(codec, old(Now()), op)
    {
      if op.begin.Some? {
        var b := op.begin.value;
        transactions := transactions + [Transaction(b.commitTimestamp, b.lsn, [], b.origin)];
      }
      var last := |transactions| - 1;
      if op.commit.Some? {
        if last < 0 {
          return false;
        }
        emitted := emitted + [transactions[last]];
        transactions := transactions[..last];
      }
      if op.insert.Some? {
        ok := ProcessInsert(codec, op.insert.value, last);
        if !ok {
          return;
        }
      }
      if op.update.Some? {
        ok := ProcessUpdate(codec, op.update.value, last);
        if !ok {
          return;
        }
      }
      if op.delete.Some? {
        ok := ProcessDelete(codec, op.delete.value, last);
        if !ok {
          return;
        }
      }
      ok := true;
    }

    /** Feeds the operations of one message; an error stops the message where it occurs, and what came
        before it stays. */
    method ProcessOpLogMessage(codec: Codec, message: SatOpLog) returns (ok: bool)
      modifies `transactions, `emitted
      ensures ok <==> FeedAll(codec, old(Now()), message.ops).Some?
      ensures ok ==> Now() == FeedAll(codec, old(Now()), message.ops).value
      ensures !ok ==> exists i :: 0 <= i < |message.ops| && FailsAt(codec, old(Now()), message.ops, i, Now())
    {
      for i := 0 to |message.ops|
        invariant FeedAll(codec, old(Now()), message.ops[..i]) == Some(Now())
      {
        FeedPrefix(codec, old(Now()), message.ops, i);
        var fed := ProcessOp(codec, message.ops[i]);
        if !fed {
          ErrorStays(codec, old(Now()), message.ops, i + 1);
          assert FailsAt(codec, old(Now()), message.ops, i, Now());
          return false;
        }
      }
      assert message.ops[..|message.ops|] == message.ops;
      ok := true;
    }
  }

  lemma FeedPrefix(codec: Codec, s: Inbound, ops: seq<SatTransOp>, i: nat)
    requires i < |ops|
    ensures var before := FeedAll(codec, s, ops[..i]);
      FeedAll(codec, s, ops[..i + 1]) == if before.None? then None else Feed(codec, before.value, ops[i])
  {
    assert ops[..i + 1][..i] == ops[..i];
  }

  lemma {:induction false} ErrorStays(codec: Codec, s: Inbound, ops: seq<SatTransOp>, n: nat)
    requires n <= |ops| && FeedAll(codec, s, ops[..n]).None?
    ensures FeedAll(codec, s, ops).None?
  {
    if n == |ops| {
      assert ops[..n] == ops;
    } else {
      assert ops[..|ops| - 1][..n] == ops[..n];
      ErrorStays(codec, s, ops[..|ops| - 1], n);
    }
  }

  // ---- Cutting the stream ----

  function Flat<T>(messages: seq<seq<T>>): seq<T> {
    if messages == [] then [] else Flat(messages[..|messages| - 1]) + messages[|messages| - 1]
  }

  function FeedMessages(codec: Codec, s: Inbound, messages: seq<seq<SatTransOp>>): Option<Inbound> {
    if messages == [] then Some(s)
    else
      var before := FeedMessages(codec, s, messages[..|messages| - 1]);
      if before.None? then None else FeedAll(codec, before.value, messages[|messages| - 1])
  }

  lemma {:induction false} FeedAppends(codec: Codec, s: Inbound, xs: seq<SatTransOp>, ys: seq<SatTransOp>)
    ensures FeedAll(codec, s, xs + ys) ==
            if FeedAll(codec, s, xs).None? then None else FeedAll(codec, FeedAll(codec, s, xs).value, ys)
  {
    if ys == [] {
      assert xs + ys == xs;
    } else {
      assert (xs + ys)[..|xs + ys| - 1] == xs + ys[..|ys| - 1];
      FeedAppends(codec, s, xs, ys[..|ys| - 1]);
    }
  }

  /** How the stream is cut into messages does not matter. */
  lemma {:induction false} CutsDoNotMatter(codec: Codec, s: Inbound, messages: seq<seq<SatTransOp>>)
    ensures FeedMessages(codec, s, messages) == FeedAll(codec, s, Flat(messages))
  {
    if messages != [] {
      var n := |messages| - 1;
      CutsDoNotMatter(codec, s, messages[..n]);
      FeedAppends(codec, s, Flat(messages[..n]), messages[n]);
    }
  }

  // ---- What arrives ----

  /** The receiver knows the relation with the same column names and types. */
  predicate SameColumns(xs: seq<Column>, ys: seq<Column>) {
    |xs| == |ys| && forall i :: 0 <= i < |xs| ==> xs[i].name == ys[i].name && xs[i].ctype == ys[i].ctype
  }

  predicate Fitting(rec: Option<Row>, columns: seq<Column>) {
    rec.Some? ==> RecordFits(rec.value, columns)
  }

  predicate Receivable(c: Change, sender: RelationMap, receiver: RelationMap) {
    c.relation.id in sender && sender[c.relation.id].id == c.relation.id && c.relation.id in receiver &&
    SameColumns(sender[c.relation.id].columns, receiver[c.relation.id].columns) &&
    Fitting(c.record, sender[c.relation.id].columns) && Fitting(c.oldRecord, sender[c.relation.id].columns)
  }

  predicate AllReceivable(changes: seq<Change>, sender: RelationMap, receiver: RelationMap) {
    forall i :: 0 <= i < |changes| ==> Receivable(changes[i], sender, receiver)
  }

  function NormalRecord(rec: Option<Row>, columns: seq<Column>): Option<Row> {
    if rec.None? then None else Some(Normal(rec.value, columns))
  }

  /** A change as it arrives: with the receiver's relation, missing values as null, and without the
      record that its operation does not carry. */
  function Arrived(c: Change, receiver: RelationMap): Change
    requires c.relation.id in receiver
  {
    var rel := receiver[c.relation.id];
    Change(c.optype, rel,
           if c.optype.DELETE? then None else NormalRecord(c.record, rel.columns),
           if c.optype.INSERT? then None else NormalRecord(c.oldRecord, rel.columns),
           c.tags)
  }

  function ArrivedChanges(changes: seq<Change>, receiver: RelationMap): seq<Change>
    requires forall i :: 0 <= i < |changes| ==> changes[i].relation.id in receiver
  {
    seq(|changes|, i requires 0 <= i < |changes| => Arrived(changes[i], receiver))
  }

  function ArrivedTransaction(t: Transaction, receiver: RelationMap): Transaction
    requires forall i :: 0 <= i < |t.changes| ==> t.changes[i].relation.id in receiver
  {
    Transaction(t.commitTimestamp, t.lsn, ArrivedChanges(t.changes, receiver), None)
  }

  lemma {:induction false} NormalBySameColumns(rec: Row, xs: seq<Column>, ys: seq<Column>)
    requires SameColumns(xs, ys)
    ensures Normal(rec, xs) == Normal(rec, ys)
  {
    if xs != [] { NormalBySameColumns(rec, xs[..|xs| - 1], ys[..|ys| - 1]); }
  }

  lemma RowArrives(codec: Codec, rec: Option<Row>, xs: seq<Column>, ys: seq<Column>)
    requires Invertible(codec) && SameColumns(xs, ys) && Fitting(rec, xs)
    ensures DeserializeRow(codec, RowData(codec, rec, xs), ys) == Some(NormalRecord(rec, ys))
  {
    if rec.Some? {
      var row := Serialized(codec, rec.value, xs);
      SerializedIsRow(codec, rec.value, xs);
      assert forall i :: 0 <= i < |xs| ==> ValueOf(rec.value, xs[i]) == ValueOf(rec.value, ys[i]);
      assert IsRowOf(codec, row, rec.value, ys);
      assert RecordFits(rec.value, ys);
      RowRoundTrip(codec, row, rec.value, ys);
    }
  }

  lemma ChangeArrives(codec: Codec, s: Inbound, t: Transaction, c: Change, sender: RelationMap)
    requires Invertible(codec) && Receivable(c, sender, s.relations) && s.open == [t]
    ensures Feed(codec, s, ChangeToOp(codec, c, sender)) ==
            Some(s.(open := [t.(changes := t.changes + [Arrived(c, s.relations)])]))
  {
    var xs, ys := sender[c.relation.id].columns, s.relations[c.relation.id].columns;
    RowArrives(codec, c.record, xs, ys);
    RowArrives(codec, c.oldRecord, xs, ys);
    var arrived := t.(changes := t.changes + [Arrived(c, s.relations)]);
    assert s.open[0 := arrived] == [arrived];
    match c.optype
    case DELETE =>
    case INSERT =>
    case UPDATE =>
  }

  lemma OneMoreChangeArrives(codec: Codec, s: Inbound, t: Transaction, ops: seq<SatTransOp>, arrived: seq<Change>,
                             c: Change, sender: RelationMap)
    requires Invertible(codec) && Receivable(c, sender, s.relations)
    requires FeedAll(codec, s, ops) == Some(s.(open := [t.(changes := arrived)]))
    ensures FeedAll(codec, s, ops + [ChangeToOp(codec, c, sender)]) ==
            Some(s.(open := [t.(changes := arrived + [Arrived(c, s.relations)])]))
  {
    var op := ChangeToOp(codec, c, sender);
    assert (ops + [op])[..|ops|] == ops;
    ChangeArrives(codec, s.(open := [t.(changes := arrived)]), t.(changes := arrived), c, sender);
  }

  /** Operations and arrived changes grow with the changes. */
  lemma OneMoreChange(codec: Codec, changes: seq<Change>, sender: RelationMap, receiver: RelationMap, n: nat)
    requires AllReceivable(changes, sender, receiver) && 0 < n <= |changes|
    ensures ChangesToOps(codec, changes, sender)[..n] ==
            ChangesToOps(codec, changes, sender)[..n - 1] + [ChangeToOp(codec, changes[n - 1], sender)]
    ensures ArrivedChanges(changes, receiver)[..n] ==
            ArrivedChanges(changes, receiver)[..n - 1] + [Arrived(changes[n - 1], receiver)]
  {
    var ops, arrived := ChangesToOps(codec, changes, sender), ArrivedChanges(changes, receiver);
    assert ops[..n] == ops[..n - 1] + [ops[n - 1]];
    assert arrived[..n] == arrived[..n - 1] + [arrived[n - 1]];
  }

  lemma {:induction false} ChangesArrive(codec: Codec, s: Inbound, t: Transaction, changes: seq<Change>,
      sender: RelationMap, n: nat)
    requires Invertible(codec) && AllReceivable(changes, sender, s.relations) && s.open == [t] && t.changes == []
    requires n <= |changes|
    ensures FeedAll(codec, s, ChangesToOps(codec, changes, sender)[..n]) ==
            Some(s.(open := [t.(changes := ArrivedChanges(changes, s.relations)[..n])]))
  {
    if n == 0 {
      assert ArrivedChanges(changes, s.relations)[..0] == [];
    } else {
      ChangesArrive(codec, s, t, changes, sender, n - 1);
      OneMoreChange(codec, changes, sender, s.relations, n);
      OneMoreChangeArrives(codec, s, t, ChangesToOps(codec, changes, sender)[..n - 1],
        ArrivedChanges(changes, s.relations)[..n - 1], changes[n - 1], sender);
    }
  }

  /** What any peer sends for a transaction: a begin, which may name an origin, changes, and a commit. */
  function PeerOps(codec: Codec, begin: SatOpBegin, changes: seq<Change>, commit: SatOpCommit,
    sender: RelationMap): seq<SatTransOp>
    requires forall i :: 0 <= i < |changes| ==> changes[i].relation.id in sender
  {
    [NO_OP.(begin := Some(begin))] + ChangesToOps(codec, changes, sender) + [NO_OP.(commit := Some(commit))]
  }

  lemma BeginArrives(codec: Codec, s: Inbound, b: SatOpBegin)
    requires s.open == []
    ensures FeedAll(codec, s, [NO_OP.(begin := Some(b))]) ==
            Some(s.(open := [Transaction(b.commitTimestamp, b.lsn, [], b.origin)]))
  {
    assert [NO_OP.(begin := Some(b))][..0] == [];
    assert s.open + [Transaction(b.commitTimestamp, b.lsn, [], b.origin)] ==
           [Transaction(b.commitTimestamp, b.lsn, [], b.origin)];
  }

  /** After the begin and n changes the transaction is open with these n changes. */
  lemma BeginningArrives(codec: Codec, s: Inbound, b: SatOpBegin, changes: seq<Change>, sender: RelationMap, n: nat)
    requires Invertible(codec) && s.open == [] && AllReceivable(changes, sender, s.relations) && n <= |changes|
    ensures FeedAll(codec, s, [NO_OP.(begin := Some(b))] + ChangesToOps(codec, changes, sender)[..n]) ==
            Some(s.(open :=
              [Transaction(b.commitTimestamp, b.lsn, ArrivedChanges(changes, s.relations)[..n], b.origin)]))
  {
    var begun := Transaction(b.commitTimestamp, b.lsn, [], b.origin);
    BeginArrives(codec, s, b);
    ChangesArrive(codec, s.(open := [begun]), begun, changes, sender, n);
    FeedAppends(codec, s, [NO_OP.(begin := Some(b))], ChangesToOps(codec, changes, sender)[..n]);
  }

  /** A commit emits the transaction that is open. */
  lemma CommitArrives(codec: Codec, s: Inbound, ops: seq<SatTransOp>, t: Transaction, commit: SatOpCommit)
    requires s.open == [] && FeedAll(codec, s, ops) == Some(s.(open := [t]))
    ensures FeedAll(codec, s, ops + [NO_OP.(commit := Some(commit))]) == Some(s.(emitted := s.emitted + [t]))
  {
    assert (ops + [NO_OP.(commit := Some(commit))])[..|ops|] == ops;
    assert [t][..0] == s.open;
  }

  /** The transaction of a peer arrives with the time, position and origin of its begin; its commit adds nothing. */
  lemma PeerTransactionArrives(codec: Codec, s: Inbound, b: SatOpBegin, changes: seq<Change>, commit: SatOpCommit,
        sender: RelationMap)
    requires Invertible(codec) && s.open == [] && AllReceivable(changes, sender, s.relations)
    ensures FeedAll(codec, s, PeerOps(codec, b, changes, commit, sender)) ==
            Some(s.(emitted := s.emitted +
              [Transaction(b.commitTimestamp, b.lsn, ArrivedChanges(changes, s.relations), b.origin)]))
  {
    var ops, arrived := ChangesToOps(codec, changes, sender), ArrivedChanges(changes, s.relations);
    BeginningArrives(codec, s, b, changes, sender, |changes|);
    assert ops[..|changes|] == ops && arrived[..|changes|] == arrived;
    CommitArrives(codec, s, [NO_OP.(begin := Some(b))] + ops, Transaction(b.commitTimestamp, b.lsn, arrived, b.origin),
      commit);
  }

  /** A whole transaction arrives as one emitted transaction, and nothing stays open. */
  lemma TransactionArrives(codec: Codec, s: Inbound, t: Transaction, sender: RelationMap)
    requires Invertible(codec) && s.open == [] && Sendable(t, sender) && AllReceivable(t.changes, sender, s.relations)
    ensures FeedAll(codec, s, TransactionOps(codec, t, sender)) ==
            Some(s.(emitted := s.emitted + [ArrivedTransaction(t, s.relations)]))
  {
    PeerTransactionArrives(codec, s, BeginOp(t).begin.value, t.changes, COMMIT_OP.commit.value, sender);
  }

  /** Of a transaction only its time and its position are sent besides its changes, one operation each: the begin
      has two fields, the commit none. */
  lemma OnlyChangesAndPositionTravel(codec: Codec, t: Transaction, relations: RelationMap)
    requires Sendable(t, relations)
    ensures var ops := TransactionOps(codec, t, relations);
      |ops| == |t.changes| + 2 && ops[0].begin.Some? && ops[|ops| - 1].commit.Some? &&
      Keys(BeginItems(codec, ops[0].begin.value)) == If(t.commitTimestamp > 0, 8) + If(t.lsn != [], 26) &&
      Keys(CommitItems(codec, ops[|ops| - 1].commit.value)) == [] &&
      Keys(OpItems(codec, ops[0])) == [10] && Keys(OpItems(codec, ops[|ops| - 1])) == [18]
  {
    BeginKeys(codec, BeginOp(t).begin.value);
    CommitKeys(codec, COMMIT_OP.commit.value);
    OpKeys(codec, BeginOp(t));
    OpKeys(codec, COMMIT_OP);
  }

  // ---- Whole streams ----

  predicate TransactionReceivable(t: Transaction, sender: RelationMap, receiver: RelationMap) {
    Sendable(t, sender) && AllReceivable(t.changes, sender, receiver)
  }

  predicate StreamReceivable(txns: seq<Transaction>, sender: RelationMap, receiver: RelationMap) {
    txns == [] ||
    (StreamReceivable(txns[..|txns| - 1], sender, receiver) &&
      TransactionReceivable(txns[|txns| - 1], sender, receiver))
  }

  function StreamOps(codec: Codec, txns: seq<Transaction>, sender: RelationMap, receiver: RelationMap): seq<SatTransOp>
    requires StreamReceivable(txns, sender, receiver)
  {
    if txns == [] then []
    else StreamOps(codec, txns[..|txns| - 1], sender, receiver) + TransactionOps(codec, txns[|txns| - 1], sender)
  }

  function ArrivedStream(txns: seq<Transaction>, sender: RelationMap, receiver: RelationMap): seq<Transaction>
    requires StreamReceivable(txns, sender, receiver)
  {
    if txns == [] then []
    else ArrivedStream(txns[..|txns| - 1], sender, receiver) + [ArrivedTransaction(txns[|txns| - 1], receiver)]
  }

  /** One more transaction after those that have arrived. */
  lemma OneMoreArrives(codec: Codec, s: Inbound, ops: seq<SatTransOp>, arrived: seq<Transaction>, t: Transaction,
        sender: RelationMap)
    requires Invertible(codec) && s.open == [] && TransactionReceivable(t, sender, s.relations)
    requires FeedAll(codec, s, ops) == Some(s.(emitted := s.emitted + arrived))
    ensures FeedAll(codec, s, ops + TransactionOps(codec, t, sender)) ==
            Some(s.(emitted := s.emitted + (arrived + [ArrivedTransaction(t, s.relations)])))
  {
    TransactionArrives(codec, s.(emitted := s.emitted + arrived), t, sender);
    FeedAppends(codec, s, ops, TransactionOps(codec, t, sender));
    assert s.emitted + arrived + [ArrivedTransaction(t, s.relations)] ==
           s.emitted + (arrived + [ArrivedTransaction(t, s.relations)]);
  }

  lemma {:induction false} StreamArrives(codec: Codec, s: Inbound, txns: seq<Transaction>, sender: RelationMap)
    requires Invertible(codec) && s.open == [] && StreamReceivable(txns, sender, s.relations)
    ensures FeedAll(codec, s, StreamOps(codec, txns, sender, s.relations)) ==
            Some(s.(emitted := s.emitted + ArrivedStream(txns, sender, s.relations)))
  {
    if txns == [] {
      assert s.emitted + [] == s.emitted;
    } else {
      var front, t := txns[..|txns| - 1], txns[|txns| - 1];
      StreamArrives(codec, s, front, sender);
      OneMoreArrives(codec, s, StreamOps(codec, front, sender, s.relations),
        ArrivedStream(front, sender, s.relations), t, sender);
    }
  }

  /** Stream reassembly: transactions translated to operations and cut into messages anywhere come out
      as the same transactions in the same order, with none left open. */
  lemma StreamReassembles(codec: Codec, s: Inbound, txns: seq<Transaction>, sender: RelationMap,
        messages: seq<seq<SatTransOp>>)
    requires Invertible(codec) && s.open == [] && StreamReceivable(txns, sender, s.relations)
    requires Flat(messages) == StreamOps(codec, txns, sender, s.relations)
    ensures FeedMessages(codec, s, messages) ==
            Some(s.(emitted := s.emitted + ArrivedStream(txns, sender, s.relations)))
  {
    CutsDoNotMatter(codec, s, messages);
    StreamArrives(codec, s, txns, sender);
  }

  /** A beginning of the operations of one transaction that is neither empty nor whole. */
  lemma BeginningOfOps(codec: Codec, t: Transaction, sender: RelationMap, n: nat)
    requires Sendable(t, sender) && 0 < n < |t.changes| + 2
    ensures TransactionOps(codec, t, sender)[..n] == [BeginOp(t)] + ChangesToOps(codec, t.changes, sender)[..n - 1]
  {
    var changes := ChangesToOps(codec, t.changes, sender);
    assert TransactionOps(codec, t, sender) == [BeginOp(t)] + changes + [COMMIT_OP];
  }

  /** What is left open after operations that are not in error. */
  predicate LeavesOpen(codec: Codec, s: Inbound, ops: seq<SatTransOp>, n: nat) {
    var u := FeedAll(codec, s, ops);
    u.Some? && u.value.relations == s.relations && |u.value.open| == n
  }

  lemma MiddleIsOpen(codec: Codec, s: Inbound, t: Transaction, sender: RelationMap, n: nat)
    requires Invertible(codec) && s.open == [] && Sendable(t, sender) && AllReceivable(t.changes, sender, s.relations)
    requires 0 < n < |t.changes| + 2
    ensures LeavesOpen(codec, s, TransactionOps(codec, t, sender)[..n], 1)
  {
    BeginningOfOps(codec, t, sender, n);
    BeginningArrives(codec, s, BeginOp(t).begin.value, t.changes, sender, n - 1);
  }

  /** Any beginning of one transaction leaves at most that one open. */
  lemma TransactionPrefix(codec: Codec, s: Inbound, t: Transaction, sender: RelationMap, n: nat)
    requires Invertible(codec) && s.open == [] && Sendable(t, sender) && AllReceivable(t.changes, sender, s.relations)
    requires n <= |t.changes| + 2
    ensures LeavesOpen(codec, s, TransactionOps(codec, t, sender)[..n], if n == 0 || n == |t.changes| + 2 then 0 else 1)
  {
    var ops := TransactionOps(codec, t, sender);
    if n == 0 {
      assert ops[..0] == [];
    } else if n == |t.changes| + 2 {
      assert ops[..n] == ops;
      TransactionArrives(codec, s, t, sender);
    } else {
      MiddleIsOpen(codec, s, t, sender, n);
    }
  }

  predicate OneOpenAtMost(codec: Codec, s: Inbound, ops: seq<SatTransOp>) {
    FeedAll(codec, s, ops).Some? && |FeedAll(codec, s, ops).value.open| <= 1
  }

  /** One more transaction, read up to any point, after those that have arrived. */
  lemma OneMoreOpens(codec: Codec, s: Inbound, ops: seq<SatTransOp>, arrived: seq<Transaction>, t: Transaction,
        sender: RelationMap, n: nat)
    requires Invertible(codec) && s.open == [] && TransactionReceivable(t, sender, s.relations)
    requires FeedAll(codec, s, ops) == Some(s.(emitted := s.emitted + arrived)) && n <= |t.changes| + 2
    ensures OneOpenAtMost(codec, s, ops + TransactionOps(codec, t, sender)[..n])
  {
    TransactionPrefix(codec, s.(emitted := s.emitted + arrived), t, sender, n);
    FeedAppends(codec, s, ops, TransactionOps(codec, t, sender)[..n]);
  }

  /** A beginning of the stream ends before the last transaction or in it. */
  lemma StreamBeginning(before: seq<SatTransOp>, ops: seq<SatTransOp>, n: nat)
    requires n <= |before| + |ops|
    ensures (before + ops)[..n] == if n <= |before| then before[..n] else before + ops[..n - |before|]
  {
  }

  lemma LaterOpens(codec: Codec, s: Inbound, txns: seq<Transaction>, t: Transaction, sender: RelationMap, n: nat)
    requires Invertible(codec) && s.open == [] && StreamReceivable(txns, sender, s.relations)
    requires TransactionReceivable(t, sender, s.relations) && n <= |t.changes| + 2
    ensures OneOpenAtMost(codec, s, StreamOps(codec, txns, sender, s.relations) + TransactionOps(codec, t, sender)[..n])
  {
    StreamArrives(codec, s, txns, sender);
    var ops := StreamOps(codec, txns, sender, s.relations);
    OneMoreOpens(codec, s, ops, ArrivedStream(txns, sender, s.relations), t, sender, n);
  }

  /** At every point of the stream at most one transaction is open. */
  lemma {:induction false} OneOpenAtATime(codec: Codec, s: Inbound, txns: seq<Transaction>, sender: RelationMap, n: nat)
    requires Invertible(codec) && s.open == [] && StreamReceivable(txns, sender, s.relations)
    requires n <= |StreamOps(codec, txns, sender, s.relations)|
    ensures OneOpenAtMost(codec, s, StreamOps(codec, txns, sender, s.relations)[..n])
  {
    if txns == [] {
      assert StreamOps(codec, txns, sender, s.relations)[..n] == [];
    } else {
      var front, t := txns[..|txns| - 1], txns[|txns| - 1];
      var before := StreamOps(codec, front, sender, s.relations);
      StreamBeginning(before, TransactionOps(codec, t, sender), n);
      if n <= |before| {
        OneOpenAtATime(codec, s, front, sender, n);
      } else {
        LaterOpens(codec, s, front, t, sender, n - |before|);
      }
    }
  }
}
