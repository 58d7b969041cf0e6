/** The satellite process: snapshots, acknowledgements, incoming batches and garbage collection, as
    in clients/typescript/src/satellite/process.ts. */
module Process {
  import opened Types
  import opened Lsn
  import opened Oplog
  import opened OplogFold
  import opened Transactions
  import opened Database
  import opened Snapshot
  import opened Apply

  /** The part of the replication client that the process talks to. */
  datatype Client = Client(closed: bool, active: bool, enqueued: seq<Byte>, queue: seq<Transaction>)

  datatype State = State(db: Db, client: Client, lastAckd: int, lastSent: int, lsn: seq<Byte>)

  datatype Outcome = Done | ReplicationNotStarted | InvalidPosition | StatementFailed

  /** The database after a snapshot has stamped and tagged the pending entries. */
  function TaggedDb(db: Db, lastAckd: int, clientId: string, ts: int): Db {
    var stamped := StampOplog(db.oplog, lastAckd, ts);
    var batch := Select(stamped, lastAckd, Some(ts));
    db.(oplog := WriteTags(stamped, Tagged(batch, db.shadow)),
        shadow := ShadowAfter(batch, db.shadow, Tag(clientId, ts)))
  }

  /** Entries above the position enqueued last that are ready to be sent. */
  function Missing(s: State): Log {
    Select(s.db.oplog, Position(s.client.enqueued), None)
  }

  /** Enqueues the first transaction of the missing entries, and only that one. */
  function Enqueue(s: State, relations: Relations): (State, Outcome)
    requires Known(relations, Missing(s))
  {
    var groups := Groups(Missing(s));
    if s.client.closed || groups == [] then (s, Done)
    else if !s.client.active then (s, ReplicationNotStarted)
    else
      GroupsCutAtStamps(Missing(s));
      FirstGroupKnown(Missing(s), relations);
      var txn := GroupToTransaction(groups[0], relations);
      (s.(client := s.client.(queue := s.client.queue + [txn], enqueued := txn.lsn)), Done)
  }

  lemma FirstGroupKnown(entries: Log, relations: Relations)
    requires Known(relations, entries) && Groups(entries) != []
    ensures Groups(entries)[0] != [] && Known(relations, Groups(entries)[0])
  {
    var groups: seq<Log> := Groups(entries);
    GroupsCutAtStamps(entries);
    forall i | 0 <= i < |groups[0]|
      ensures groups[0][i].key.table in relations
    {
      GroupsAreInside(groups, 0, groups[0][i]);
    }
  }

  function AfterTagging(s: State, clientId: string, ts: int): State {
    s.(db := TaggedDb(s.db, s.lastAckd, clientId, ts))
  }

  function TakeSnapshot(s: State, clientId: string, relations: Relations, ts: int): (State, Outcome)
    requires Known(relations, Missing(AfterTagging(s, clientId, ts)))
  {
    Enqueue(AfterTagging(s, clientId, ts), relations)
  }

  function AckPosition(s: State, lsn: int, isAck: bool): (State, Outcome) {
    if lsn < s.lastAckd || (lsn > s.lastSent && isAck) then (s, InvalidPosition)
    else if isAck then (s.(lastAckd := lsn), Done)
    else (s.(lastSent := lsn), Done)
  }

  function CollectStamp(s: State, ts: int): State {
    s.(db := s.db.(oplog := WithoutStamp(s.db.oplog, ts)))
  }

  function MergedWith(s: State, clientId: string, incoming: Log, origin: string): ShadowTables {
    MergedEntries(clientId, Select(s.db.oplog, s.lastAckd, None), origin, incoming)
  }

  method Enumerate<T(==,!new)>(elements: set<T>) returns (s: seq<T>)
    ensures Enumerates(s, elements)
  {
    s := [];
    var rest := elements;
    while rest != {}
      invariant rest <= elements && Enumerates(s, elements - rest)
      decreases rest
    {
      var x :| x in rest;
      s := s + [x];
      rest := rest - {x};
    }
  }

  /** The statements of one batch, in some order of its tables and rows. */
  method BuildStatements(merged: ShadowTables, lsn: seq<Byte>)
    returns (stmts: seq<Statement>, tables: seq<string>, keys: seq<RowKey>)
    ensures Enumerates(keys, merged.Keys) && Enumerates(tables, TablesOf(merged))
    ensures stmts == BatchStatements(tables, keys, merged, lsn)
  {
    var rows := Enumerate(merged.Keys);
    var names := Enumerate(TablesOf(merged));
    tables, keys := names, rows;
    stmts := [];
    for i := 0 to |rows|
      invariant stmts == AllRowStatements(rows[..i], merged)
    {
      assert Front(rows[..i + 1]) == rows[..i];
      var k := rows[i];
      match merged[k].optype
      case REMOVE =>
        stmts := stmts + [DeleteRow(k), DeleteShadow(k)];
      case UPSERT =>
        stmts := stmts + [UpsertRow(k, merged[k].changes), PutShadow(k, merged[k].tags)];
    }
    assert rows[..|rows|] == rows;
    stmts := FlagStatements(names, false) + [SetLsn(lsn)] + stmts + FlagStatements(names, true);
  }

  /** Done exactly when every merged row can be stored: then `after` has the batch stored, with the oplog
      as it was and the new position.  Otherwise a statement failed and `after` is `before` itself. */
  ghost predicate Stored(before: Db, merged: ShadowTables, lsn: seq<Byte>, r: Outcome, after: Db) {
    if AllStorable(before.required, merged) then
      r == Done && SameLog(after, before) && after.lsn == lsn &&
      (exists tables, keys :: Enumerates(keys, merged.Keys) && Enumerates(tables, TablesOf(merged)) &&
         RunInTransaction(before, BatchStatements(tables, keys, merged, lsn)) == Some(after)) &&
      (KeyedTable(before.rows) && AllKeyed(merged) ==> after == AppliedDb(before, merged, lsn))
    else r == StatementFailed && after == before
  }

  method StoreBatch(db: Db, merged: ShadowTables, lsn: seq<Byte>) returns (r: Outcome, after: Db)
    ensures Stored(db, merged, lsn, r, after)
  {
    ghost var tables, keys;
    var stmts;
    stmts, tables, keys := BuildStatements(merged, lsn);
    BatchSucceeds(db, tables, keys, merged, lsn);
    BatchLogsNothing(db, tables, keys, merged, lsn);
    if KeyedTable(db.rows) && AllKeyed(merged) && AllStorable(db.required, merged) {
      BatchEffect(db, tables, keys, merged, lsn);
    }
    match RunInTransaction(db, stmts)
    case None =>
      r, after := StatementFailed, db;
    case Some(d) =>
      r, after := Done, d;
  }

  class SatelliteProcess {
    const clientId: string
    const relations: Relations
    var db: Db
    var client: Client
    var lastAckdRowId: int
    var lastSentRowId: int
    var lsn: seq<Byte>

    constructor (clientId: string, relations: Relations, s: State)
      ensures this.clientId == clientId && this.relations == relations && Now() == s
    {
      this.clientId, this.relations := clientId, relations;
      db, client, lastAckdRowId, lastSentRowId, lsn := s.db, s.client, s.lastAckd, s.lastSent, s.lsn;
    }

    function Now(): State
      reads this
    {
      State(db, client, lastAckdRowId, lastSentRowId, lsn)
    }

    /** Stamps and tags the pending entries, then enqueues the first missing transaction. */
    method PerformSnapshot(timestamp: int) returns (r: Outcome)
      requires Known(relations, Missing(AfterTagging(Now(), clientId, timestamp)))
      modifies this
      ensures (Now(), r) == TakeSnapshot(old(Now()), clientId, relations, timestamp)
    {
      db := db.(oplog := StampOplog(db.oplog, lastAckdRowId, timestamp));
      var oplogEntries := Select(db.oplog, lastAckdRowId, Some(timestamp));
      var tagged, shadow := TagBatch(oplogEntries, db.shadow, Tag(clientId, timestamp));
      db := db.(oplog := WriteTags(db.oplog, tagged), shadow := shadow);
      assert Now() == AfterTagging(old(Now()), clientId, timestamp);
      r := Done;
      if !client.closed {
        r := ReplicateSnapshotChanges(Select(db.oplog, Position(client.enqueued), None));
      }
    }

    method ReplicateSnapshotChanges(results: Log) returns (r: Outcome)
      requires results == Missing(Now()) && Known(relations, results)
      modifies this
      ensures (Now(), r) == Enqueue(old(Now()), relations)
    {
      if client.closed {
        return Done;
      }
      var transactions := ToTransactions(results, relations);
      if |transactions| > 0 {
        r := EnqueueTransaction(transactions[0]);
      } else {
        r := Done;
      }
    }

    method EnqueueTransaction(txn: Transaction) returns (r: Outcome)
      modifies `client
      ensures r == if old(client.active) then Done else ReplicationNotStarted
      ensures client == if old(client.active) then old(client).(queue := old(client.queue) + [txn], enqueued := txn.lsn)
                        else old(client)
    {
      if !client.active {
        return ReplicationNotStarted;
      }
      client := client.(queue := client.queue + [txn], enqueued := txn.lsn);
      r := Done;
    }

    /** Applies an incoming batch: a snapshot first, then one database transaction. */
    method ApplyBatch(incoming: Log, origin: string, newLsn: seq<Byte>, timestamp: int) returns (r: Outcome)
      requires Known(relations, Missing(AfterTagging(Now(), clientId, timestamp)))
      modifies this
      ensures var (s, taken) := TakeSnapshot(old(Now()), clientId, relations, timestamp);
        if taken != Done then r == taken && Now() == s
        else
          Stored(s.db, MergedWith(s, clientId, incoming, origin), newLsn, r, db) &&
          Now() == s.(db := db, lsn := newLsn)
    {
      r := PerformSnapshot(timestamp);
      if r == Done {
        var local := Select(db.oplog, lastAckdRowId, None);
        var merged := MergeEntries(clientId, local, origin, incoming);
        lsn := newLsn;
        r, db := StoreBatch(db, merged, newLsn);
      }
    }

    /** A transaction that came back to its origin also clears the oplog entries of its stamp. */
    method ApplyTransactionInternal(origin: string, commitTimestamp: int, incoming: Log, newLsn: seq<Byte>,
          timestamp: int)
      returns (r: Outcome)
      requires Known(relations, Missing(AfterTagging(Now(), clientId, timestamp)))
      modifies this
      ensures var (s, taken) := TakeSnapshot(old(Now()), clientId, relations, timestamp);
        if taken != Done then r == taken && Now() == s
        else
          exists stored :: Stored(s.db, MergedWith(s, clientId, incoming, origin), newLsn, r, stored) &&
            var t := s.(db := stored, lsn := newLsn);
            Now() == if r == Done && origin == clientId then CollectStamp(t, commitTimestamp) else t
    {
      r := ApplyBatch(incoming, origin, newLsn, timestamp);
      if r == Done && origin == clientId {
        GarbageCollectOplog(commitTimestamp);
      }
    }

    method Ack(position: int, isAck: bool) returns (r: Outcome)
      modifies this
      ensures (Now(), r) == AckPosition(old(Now()), position, isAck)
    {
      if position < lastAckdRowId || (position > lastSentRowId && isAck) {
        return InvalidPosition;
      }
      if isAck {
        lastAckdRowId := position;
      } else {
        lastSentRowId := position;
      }
      r := Done;
    }

    method GarbageCollectOplog(commitTimestamp: int)
      modifies this
      ensures Now() == CollectStamp(old(Now()), commitTimestamp)
    {
      db := db.(oplog := WithoutStamp(db.oplog, commitTimestamp));
    }
  }

  /** What a snapshot does to the oplog, entry by entry: pending entries are stamped; of the entries
      of this stamp, the first of each row clears the tags its row had, later ones clear nothing;
      all else is unchanged. */
  lemma SnapshotTagsOplog(db: Db, lastAckd: int, clientId: string, ts: int, i: nat)
    requires Ascending(db.oplog) && i < |db.oplog|
    ensures |TaggedDb(db, lastAckd, clientId, ts).oplog| == |db.oplog|
    ensures TaggedDb(db, lastAckd, clientId, ts).oplog[i] ==
            EntryAfter(StampOplog(db.oplog, lastAckd, ts), i, lastAckd, ts, db.shadow)
  {
    var stamped := StampOplog(db.oplog, lastAckd, ts);
    assert Ascending(stamped);
    TagsReachOplog(stamped, lastAckd, ts, db.shadow, i);
  }

  /** Pending or already of this stamp, above the acknowledged position. */
  predicate InBatch(e: OplogEntry, lastAckd: int, ts: int) {
    e.rowid > lastAckd && (e.timestamp.None? || e.timestamp == Some(ts))
  }

  /** The same in terms of the oplog before: an entry in the batch gets the stamp and clears the tags of its
      row if it is the first of the row there and none otherwise; every other entry stays as it is. */
  lemma SnapshotStamps(db: Db, lastAckd: int, clientId: string, ts: int, i: nat)
    requires Ascending(db.oplog) && i < |db.oplog|
    ensures var e, t := db.oplog[i], TaggedDb(db, lastAckd, clientId, ts);
      |t.oplog| == |db.oplog| && t.rows == db.rows &&
      if !InBatch(e, lastAckd, ts) then t.oplog[i] == e
      else if exists j :: 0 <= j < i && db.oplog[j].key == e.key && InBatch(db.oplog[j], lastAckd, ts)
      then t.oplog[i] == e.(timestamp := Some(ts), clearTags := [])
      else t.oplog[i] == e.(timestamp := Some(ts), clearTags := TagsOf(db.shadow, e.key))
  {
    SnapshotTagsOplog(db, lastAckd, clientId, ts, i);
    var stamped := StampOplog(db.oplog, lastAckd, ts);
    forall j | 0 <= j < |db.oplog|
      ensures Selected(stamped[j], lastAckd, Some(ts)) <==> InBatch(db.oplog[j], lastAckd, ts)
      ensures stamped[j].key == db.oplog[j].key
    {
      assert stamped[j] == StampEntry(db.oplog[j], lastAckd, ts);
    }
  }

  /** A stamped entry above the position enqueued last. */
  predicate Waits(s: State, e: OplogEntry) {
    e in s.db.oplog && e.timestamp.Some? && e.rowid > Position(s.client.enqueued)
  }

  /** Something is enqueued exactly when something waits and the client is open and active; an open client
      that is not active is an error when something waits.  Only the client changes. */
  lemma EnqueuesExactlyWhen(s: State, relations: Relations)
    requires Known(relations, Missing(s))
    ensures var (t, r) := Enqueue(s, relations);
      t.(client := s.client) == s && t.client.closed == s.client.closed && t.client.active == s.client.active &&
      (r == ReplicationNotStarted <==> !s.client.closed && !s.client.active && exists e :: Waits(s, e)) &&
      (r == Done || r == ReplicationNotStarted) &&
      if !s.client.closed && s.client.active && exists e :: Waits(s, e)
      then
        |t.client.queue| == |s.client.queue| + 1 && Front(t.client.queue) == s.client.queue &&
        t.client.enqueued == Last(t.client.queue).lsn
      else t == s
  {
    SelectFromOplog(s.db.oplog, Position(s.client.enqueued), None);
    GroupsCutAtStamps(Missing(s));
    assert Groups(Missing(s)) == [] <==> Missing(s) == [];
    if Missing(s) != [] {
      var e := Missing(s)[0];
      assert e in Missing(s) && Selected(e, Position(s.client.enqueued), None);
      assert Waits(s, e);
    }
  }

  /** Afterwards a row last written carries the new tag alone, a row last deleted none, and rows
      without entries of this stamp the tags they had. */
  lemma SnapshotTagsRows(db: Db, lastAckd: int, clientId: string, ts: int, k: RowKey)
    ensures var batch := Select(StampOplog(db.oplog, lastAckd, ts), lastAckd, Some(ts));
      Get(TaggedDb(db, lastAckd, clientId, ts).shadow, k) ==
      match LastKind(batch, k) {
        case None => Get(db.shadow, k)
        case Some(kind) => if kind.REMOVE? then None else Some([Tag(clientId, ts)])
      }
  {
    var batch := Select(StampOplog(db.oplog, lastAckd, ts), lastAckd, Some(ts));
    assert k in TouchedRows(batch) <==> LastKind(batch, k).Some?;
  }
}
