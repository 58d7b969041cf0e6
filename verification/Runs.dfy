/** Whole runs of a satellite: what is enqueued is what was logged, in order, once, with no gap. */
module Runs {
  import opened Types
  import opened Lsn
  import opened Oplog
  import opened OplogFold
  import opened Transactions
  import opened Database
  import opened Snapshot
  import opened Apply
  import opened Process

  /** Entries above a position. */
  function Above(oplog: Log, position: int): Log {
    if oplog == [] then []
    else
      var front := Above(Front(oplog), position);
      if Last(oplog).rowid > position then front + [Last(oplog)] else front
  }

  /** A run: the current state, every write logged above the starting position, the entries already
      enqueued and the transactions they were enqueued in. */
  datatype Trace = Trace(s: State, logged: Log, past: Log, sent: seq<Transaction>)

  datatype Step =
    /** The application runs a statement; its triggers may log a write. */
    | LocalWrite(stmt: Statement)
    | SnapshotStep(ts: int)
    /** An incoming batch: rows, tags, triggers and the positions change, the oplog does not. */
    | Incoming(ts: int, rows: Table, shadow: Shadow, triggers: map<string, bool>, stored: seq<Byte>, lsn: seq<Byte>)
    | Collect(ts: int)
    | LocalSend(position: int)
    | RemoteCommit(position: int)
    /** The client pushes: its queue is emptied. */
    | Push
    | Close
    | Connect
    /** The server asks the client to start sending, or to stop. */
    | Start(lsn: seq<Byte>, lastAcknowledged: bool, first: bool)
    | Stop

  function Cursor(s: State): int {
    Position(s.client.enqueued)
  }

  /** The trace after the process has moved to `s`: a new queue entry is a newly sent transaction. */
  function Follow(t: Trace, s: State, missing: Log): Trace {
    if s.client == t.s.client || Groups(missing) == [] || s.client.queue == [] then t.(s := s)
    else Trace(s, t.logged, t.past + Groups(missing)[0], t.sent + [Last(s.client.queue)])
  }

  predicate Ready(t: Trace, clientId: string, relations: Relations, ts: int) {
    Known(relations, Missing(AfterTagging(t.s, clientId, ts)))
  }

  /** A snapshot; with an entry of an unknown table nothing is modelled to happen (the invariant excludes that). */
  function Snap(t: Trace, clientId: string, relations: Relations, ts: int): Trace {
    if Ready(t, clientId, relations, ts)
    then Follow(t, TakeSnapshot(t.s, clientId, relations, ts).0, Missing(AfterTagging(t.s, clientId, ts)))
    else t
  }

  function Write(t: Trace, stmt: Statement): Trace {
    match Exec(t.s.db, stmt)
    case None => t
    case Some(db) =>
      var added := if |db.oplog| > |t.s.db.oplog| then db.oplog[|t.s.db.oplog|..] else [];
      t.(s := t.s.(db := db), logged := t.logged + added)
  }

  function WithClient(t: Trace, client: Client): Trace {
    t.(s := t.s.(client := client))
  }

  /** A start request is answered with an error on a client that is active already. */
  predicate Starts(s: State, step: Step) {
    step.Start? && !s.client.closed && !s.client.active
  }

  function Started(c: Client, position: seq<Byte>, lastAcknowledged: bool, first: bool): Client {
    if c.closed || c.active then c
    else
      c.(active := true, enqueued := StartPosition(c.enqueued, position, lastAcknowledged, first), queue := [])
  }

  function Next(t: Trace, step: Step, clientId: string, relations: Relations): Trace {
    match step
    case LocalWrite(stmt) => Write(t, stmt)
    case SnapshotStep(ts) => Snap(t, clientId, relations, ts)
    case Incoming(ts, rows, shadow, triggers, stored, lsn) =>
      var u := Snap(t, clientId, relations, ts);
      u.(s := u.s.(db := u.s.db.(rows := rows, shadow := shadow, triggers := triggers, lsn := stored), lsn := lsn))
    case Collect(ts) => t.(s := CollectStamp(t.s, ts))
    case LocalSend(position) => t.(s := AckPosition(t.s, position, false).0)
    case RemoteCommit(position) => t.(s := AckPosition(t.s, position, true).0)
    case Push => WithClient(t, t.s.client.(queue := []))
    case Close => WithClient(t, t.s.client.(closed := true, active := false, queue := []))
    case Connect => WithClient(t, t.s.client.(closed := false))
    case Start(position, lastAcknowledged, first) =>
      WithClient(t, Started(t.s.client, position, lastAcknowledged, first))
    case Stop => WithClient(t, t.s.client.(active := false))
  }

  /** What the surroundings guarantee: writes to known tables while rowids fit 31 bits, local sends of
      enqueued positions, collection of stamps that are enqueued already, and start requests from a
      position that was sent some time, up to which all entries have their stamps. */
  predicate Allowed(s: State, step: Step, relations: Relations) {
    match step
    case LocalWrite(DeleteRow(k)) => k.table in relations && s.db.lastRowid + 1 < TWO_31
    case LocalWrite(UpsertRow(k, _)) => k.table in relations && s.db.lastRowid + 1 < TWO_31
    case LocalWrite(_) => false
    case Collect(ts) => forall e :: e in s.db.oplog && e.timestamp == Some(ts) ==> e.rowid <= Cursor(s)
    case LocalSend(position) => position <= Cursor(s)
    case Start(position, lastAcknowledged, first) =>
      var c := Position(Started(s.client, position, lastAcknowledged, first).enqueued);
      0 <= c <= s.db.lastRowid && forall e :: e in s.db.oplog && e.rowid <= c ==> e.timestamp.Some?
    case _ => true
  }

  // ---- The invariant ----

  predicate SameWrite(a: OplogEntry, b: OplogEntry) {
    a.rowid == b.rowid && a.key == b.key && a.optype == b.optype && a.newRow == b.newRow && a.oldRow == b.oldRow
  }

  predicate SameWrites(xs: Log, ys: Log) {
    |xs| == |ys| && forall i :: 0 <= i < |xs| ==> SameWrite(xs[i], ys[i])
  }

  predicate GoodState(s: State, relations: Relations) {
    Ascending(s.db.oplog) && s.db.lastRowid < TWO_31 &&
    0 <= Cursor(s) <= s.db.lastRowid && s.lastAckd <= s.lastSent <= s.db.lastRowid &&
    forall e :: e in s.db.oplog ==>
      0 < e.rowid <= s.db.lastRowid && e.key.table in relations &&
      (e.rowid <= Cursor(s) || e.rowid <= s.lastSent ==> e.timestamp.Some?)
  }

  function Full(t: Trace): Log {
    t.past + Above(t.s.db.oplog, Cursor(t.s))
  }

  /** Enqueued entries lie between the start and the cursor, in strictly ascending order. */
  predicate Ordered(past: Log, start: int, cursor: int) {
    start <= cursor && Ascending(past) && forall i :: 0 <= i < |past| ==> start < past[i].rowid <= cursor
  }

  predicate Carried(past: Log, sent: seq<Transaction>, relations: Relations) {
    Known(relations, past) && AllChanges(sent) == EntriesToChanges(past, relations)
  }

  /** The positions of the transactions sent strictly increase up to the cursor. */
  predicate SentInOrder(sent: seq<Transaction>, cursor: int) {
    (forall i, j :: 0 <= i < j < |sent| ==> Position(sent[i].lsn) < Position(sent[j].lsn)) &&
    forall i :: 0 <= i < |sent| ==> Position(sent[i].lsn) <= cursor
  }

  /** The enqueued entries and the oplog above the cursor are together the writes logged above the
      start; the transactions sent carry exactly the changes of the enqueued ones. */
  predicate Inv(t: Trace, start: int, relations: Relations) {
    GoodState(t.s, relations) && Ordered(t.past, start, Cursor(t.s)) && SameWrites(Full(t), t.logged) &&
    Carried(t.past, t.sent, relations) && SentInOrder(t.sent, Cursor(t.s))
  }

  // ---- Lemmas about `Above` ----

  lemma {:induction false} AboveIsAbove(oplog: Log, c: int)
    ensures forall e :: e in Above(oplog, c) <==> e in oplog && e.rowid > c
    ensures Ascending(oplog) ==> Ascending(Above(oplog, c))
  {
    if oplog != [] {
      var front, e := Front(oplog), Last(oplog);
      AboveIsAbove(front, c);
      assert oplog == front + [e];
      if Ascending(oplog) {
        forall m | 0 <= m < |Above(front, c)|
          ensures Above(front, c)[m].rowid < e.rowid
        {
          assert Above(front, c)[m] in front;
        }
      }
    }
  }

  lemma {:induction false} AboveKeepsWrites(xs: Log, ys: Log, c: int)
    requires SameWrites(xs, ys)
    ensures SameWrites(Above(xs, c), Above(ys, c))
  {
    if xs != [] {
      AboveKeepsWrites(Front(xs), Front(ys), c);
      assert SameWrite(Last(xs), Last(ys));
    }
  }

  /** Moving the cursor to the `n`-th entry above it leaves the entries after that one. */
  lemma {:induction false} AboveMoves(oplog: Log, c: int, n: nat)
    requires Ascending(oplog) && 0 < n <= |Above(oplog, c)|
    ensures Above(oplog, Above(oplog, c)[n - 1].rowid) == Above(oplog, c)[n..]
  {
    var front, e, all := Front(oplog), Last(oplog), Above(oplog, c);
    var before := Above(front, c);
    AboveIsAbove(oplog, c);
    assert Ascending(front);
    if n <= |before| {
      AboveMoves(front, c, n);
      assert all == if e.rowid > c then before + [e] else before;
      if e.rowid > c {
        assert all[n - 1].rowid < all[|before|].rowid;
      } else {
        assert before[n - 1] in Above(oplog, c);
      }
    } else {
      NothingAbove(front, e.rowid);
    }
  }

  lemma {:induction false} NothingAbove(oplog: Log, c: int)
    requires forall i :: 0 <= i < |oplog| ==> oplog[i].rowid < c
    ensures Above(oplog, c) == []
  {
    if oplog != [] {
      assert forall i :: 0 <= i < |oplog| - 1 ==> Front(oplog)[i] == oplog[i];
      NothingAbove(Front(oplog), c);
    }
  }

  lemma {:induction false} CollectKeepsAbove(oplog: Log, ts: int, c: int)
    requires forall e :: e in oplog && e.timestamp == Some(ts) ==> e.rowid <= c
    ensures Above(WithoutStamp(oplog, ts), c) == Above(oplog, c)
    ensures forall e :: e in WithoutStamp(oplog, ts) ==> e in oplog
    ensures Ascending(oplog) ==> Ascending(WithoutStamp(oplog, ts))
  {
    if oplog != [] {
      var front, e := Front(oplog), Last(oplog);
      assert oplog == front + [e];
      CollectKeepsAbove(front, ts, c);
      var rest := WithoutStamp(front, ts);
      if e.timestamp != Some(ts) {
        assert Front(rest + [e]) == rest;
      }
      if Ascending(oplog) {
        forall m | 0 <= m < |rest|
          ensures rest[m].rowid < e.rowid
        {
          assert rest[m] in front;
        }
      }
    }
  }

  lemma {:induction false} AllStamped(oplog: Log, c: int)
    requires forall e :: e in oplog ==> e.timestamp.Some?
    ensures Select(oplog, c, None) == Above(oplog, c)
  {
    if oplog != [] {
      assert oplog == Front(oplog) + [Last(oplog)];
      AllStamped(Front(oplog), c);
    }
  }

  lemma {:induction false} FirstGroup(groups: seq<Log>)
    requires groups != []
    ensures groups[0] <= Flatten(groups)
  {
    if |groups| > 1 {
      FirstGroup(Front(groups));
    }
  }

  /** Collection is harmless exactly when it removes nothing above the cursor. */
  lemma CollectIsHarmless(oplog: Log, ts: int, c: int)
    ensures Above(WithoutStamp(oplog, ts), c) == Above(oplog, c) <==>
            forall e :: e in oplog && e.timestamp == Some(ts) ==> e.rowid <= c
  {
    if forall e :: e in oplog && e.timestamp == Some(ts) ==> e.rowid <= c {
      CollectKeepsAbove(oplog, ts, c);
    } else {
      var e :| e in oplog && e.timestamp == Some(ts) && e.rowid > c;
      AboveIsAbove(oplog, c);
      AboveIsAbove(WithoutStamp(oplog, ts), c);
      StampIsGone(oplog, ts);
      assert e in Above(oplog, c) && e !in Above(WithoutStamp(oplog, ts), c);
    }
  }

  lemma {:induction false} StampIsGone(oplog: Log, ts: int)
    ensures forall e :: e in WithoutStamp(oplog, ts) ==> e.timestamp != Some(ts)
  {
    if oplog != [] {
      StampIsGone(Front(oplog), ts);
    }
  }

  // ---- Every step keeps the invariant ----

  lemma {:induction false} TagsKeepWrite(e: OplogEntry, tagged: Log)
    ensures SameWrite(WithTags(e, tagged), e) && WithTags(e, tagged).timestamp == e.timestamp
  {
    if tagged != [] {
      TagsKeepWrite(e, Front(tagged));
    }
  }

  /** Stamping and tagging change no write, and leave no entry without a stamp. */
  lemma TaggingKeeps(s: State, clientId: string, ts: int, relations: Relations)
    requires GoodState(s, relations)
    ensures var u := AfterTagging(s, clientId, ts);
      SameWrites(u.db.oplog, s.db.oplog) && GoodState(u, relations) &&
      Missing(u) == Above(u.db.oplog, Cursor(u)) && Known(relations, Missing(u)) && Ascending(Missing(u)) &&
      forall e :: e in u.db.oplog ==> e.timestamp.Some?
  {
    var u := AfterTagging(s, clientId, ts);
    var stamped := StampOplog(s.db.oplog, s.lastAckd, ts);
    var tagged := Tagged(Select(stamped, s.lastAckd, Some(ts)), s.db.shadow);
    forall i | 0 <= i < |s.db.oplog|
      ensures SameWrite(u.db.oplog[i], s.db.oplog[i]) && u.db.oplog[i].timestamp.Some?
    {
      assert s.db.oplog[i] in s.db.oplog;
      TagsKeepWrite(stamped[i], tagged);
    }
    AllStamped(u.db.oplog, Cursor(u));
    AboveIsAbove(u.db.oplog, Cursor(u));
    assert forall i :: 0 <= i < |Missing(u)| ==> Missing(u)[i] in u.db.oplog;
  }

  lemma TaggingKeepsFull(t: Trace, clientId: string, ts: int, relations: Relations)
    requires GoodState(t.s, relations) && SameWrites(Full(t), t.logged)
    ensures SameWrites(Full(t.(s := AfterTagging(t.s, clientId, ts))), t.logged)
  {
    var u := AfterTagging(t.s, clientId, ts);
    TaggingKeeps(t.s, clientId, ts, relations);
    AboveKeepsWrites(u.db.oplog, t.s.db.oplog, Cursor(u));
    PastAndAbove(t.past, Above(u.db.oplog, Cursor(u)), Above(t.s.db.oplog, Cursor(u)), t.logged);
  }

  lemma PastAndAbove(past: Log, xs: Log, ys: Log, logged: Log)
    requires SameWrites(xs, ys) && SameWrites(past + ys, logged)
    ensures SameWrites(past + xs, logged)
  {
    forall i | 0 <= i < |past + xs|
      ensures SameWrite((past + xs)[i], logged[i])
    {
      assert SameWrite((past + ys)[i], logged[i]);
      if i >= |past| {
        assert SameWrite(xs[i - |past|], ys[i - |past|]);
      }
    }
  }

  lemma SnapKeeps(t: Trace, start: int, clientId: string, relations: Relations, ts: int)
    requires Inv(t, start, relations)
    ensures Ready(t, clientId, relations, ts) && Inv(Snap(t, clientId, relations, ts), start, relations)
  {
    TaggingKeeps(t.s, clientId, ts, relations);
    TaggingKeepsFull(t, clientId, ts, relations);
    EnqueueKeeps(t.(s := AfterTagging(t.s, clientId, ts)), start, relations);
  }

  /** The first group of the missing entries is a prefix of them and moves the cursor to its end. */
  lemma FirstGroupMoves(s: State, relations: Relations)
    requires GoodState(s, relations) && Missing(s) == Above(s.db.oplog, Cursor(s)) && Groups(Missing(s)) != []
    requires Known(relations, Missing(s))
    ensures var group := Groups(Missing(s))[0];
      group != [] && group <= Missing(s) && Known(relations, group) &&
      Position(NumberToBytes(Last(group).rowid)) == Last(group).rowid &&
      Cursor(s) < Last(group).rowid <= s.db.lastRowid &&
      Above(s.db.oplog, Last(group).rowid) == Missing(s)[|group|..]
  {
    var missing, groups := Missing(s), Groups(Missing(s));
    GroupsCutAtStamps(missing);
    FirstGroup(groups);
    FirstGroupKnown(missing, relations);
    FirstGroupEnd(s, relations, groups[0]);
  }

  lemma FirstGroupEnd(s: State, relations: Relations, group: Log)
    requires GoodState(s, relations) && group != [] && group <= Above(s.db.oplog, Cursor(s))
    ensures Position(NumberToBytes(Last(group).rowid)) == Last(group).rowid
    ensures Cursor(s) < Last(group).rowid <= s.db.lastRowid
    ensures Above(s.db.oplog, Last(group).rowid) == Above(s.db.oplog, Cursor(s))[|group|..]
  {
    var above := Above(s.db.oplog, Cursor(s));
    assert above[|group| - 1] == Last(group);
    AboveIsAbove(s.db.oplog, Cursor(s));
    assert Last(group) in above;
    PositionRoundTrip(Last(group).rowid);
    AboveMoves(s.db.oplog, Cursor(s), |group|);
  }

  lemma ChangesAppend(past: Log, group: Log, relations: Relations)
    requires Known(relations, past) && Known(relations, group)
    ensures Known(relations, past + group)
    ensures EntriesToChanges(past + group, relations) ==
            EntriesToChanges(past, relations) + EntriesToChanges(group, relations)
  {
  }

  lemma CarriedGrows(past: Log, sent: seq<Transaction>, group: Log, relations: Relations)
    requires Carried(past, sent, relations) && group != [] && Known(relations, group)
    ensures Carried(past + group, sent + [GroupToTransaction(group, relations)], relations)
  {
    ChangesAppend(past, group, relations);
    assert Front(sent + [GroupToTransaction(group, relations)]) == sent;
  }

  lemma OrderedGrows(past: Log, group: Log, start: int, cursor: int)
    requires Ordered(past, start, cursor) && group != [] && Ascending(group) && cursor < group[0].rowid
    ensures Ordered(past + group, start, Last(group).rowid)
  {
    assert forall i :: 0 <= i < |group| ==> group[0].rowid <= group[i].rowid <= Last(group).rowid;
  }

  function EnqueuedState(s: State, txn: Transaction): State {
    s.(client := s.client.(queue := s.client.queue + [txn], enqueued := txn.lsn))
  }

  lemma FollowEnqueue(t: Trace, relations: Relations)
    requires Known(relations, Missing(t.s))
    ensures var s, next := Enqueue(t.s, relations).0, Follow(t, Enqueue(t.s, relations).0, Missing(t.s));
      next == t ||
      (Groups(Missing(t.s)) != [] && Groups(Missing(t.s))[0] != [] && Known(relations, Groups(Missing(t.s))[0]) &&
       var group := Groups(Missing(t.s))[0];
       var txn := GroupToTransaction(group, relations);
       next == Trace(EnqueuedState(t.s, txn), t.logged, t.past + group, t.sent + [txn]))
  {
    var s, groups := Enqueue(t.s, relations).0, Groups(Missing(t.s));
    if s != t.s {
      FirstGroupKnown(Missing(t.s), relations);
      assert |s.client.queue| == |t.s.client.queue| + 1;
    }
  }

  lemma EnqueueKeeps(t: Trace, start: int, relations: Relations)
    requires Inv(t, start, relations)
    requires Missing(t.s) == Above(t.s.db.oplog, Cursor(t.s)) && Known(relations, Missing(t.s)) &&
             Ascending(Missing(t.s))
    requires forall e :: e in t.s.db.oplog ==> e.timestamp.Some?
    ensures Inv(Follow(t, Enqueue(t.s, relations).0, Missing(t.s)), start, relations)
  {
    var next := Follow(t, Enqueue(t.s, relations).0, Missing(t.s));
    FollowEnqueue(t, relations);
    if next != t {
      FirstGroupMoves(t.s, relations);
      MoveKeeps(t, start, Groups(Missing(t.s))[0], relations);
    }
  }

  /** Sending a prefix of the entries above the cursor and moving the cursor to its end. */
  lemma MoveKeeps(t: Trace, start: int, group: Log, relations: Relations)
    requires Inv(t, start, relations) && forall e :: e in t.s.db.oplog ==> e.timestamp.Some?
    requires group != [] && group <= Above(t.s.db.oplog, Cursor(t.s)) && Known(relations, group)
    ensures var txn := GroupToTransaction(group, relations);
      Inv(Trace(EnqueuedState(t.s, txn), t.logged, t.past + group, t.sent + [txn]), start, relations)
  {
    FirstGroupEnd(t.s, relations, group);
    CarriedGrows(t.past, t.sent, group, relations);
    GroupAscends(t.s, group, relations);
    OrderedGrows(t.past, group, start, Cursor(t.s));
    MoveKeepsFull(t.past, group, Above(t.s.db.oplog, Cursor(t.s)));
    MoveKeepsState(t.s, GroupToTransaction(group, relations), relations);
  }

  lemma MoveKeepsFull(past: Log, group: Log, above: Log)
    requires group <= above
    ensures (past + group) + above[|group|..] == past + above
  {
    assert above == group + above[|group|..];
  }

  lemma MoveKeepsState(s: State, txn: Transaction, relations: Relations)
    requires GoodState(s, relations) && Cursor(s) < Position(txn.lsn) <= s.db.lastRowid
    requires forall e :: e in s.db.oplog ==> e.timestamp.Some?
    ensures GoodState(EnqueuedState(s, txn), relations)
  {
  }

  lemma GroupAscends(s: State, group: Log, relations: Relations)
    requires GoodState(s, relations) && group != [] && group <= Above(s.db.oplog, Cursor(s))
    ensures Ascending(group) && Cursor(s) < group[0].rowid
  {
    var above := Above(s.db.oplog, Cursor(s));
    AboveIsAbove(s.db.oplog, Cursor(s));
    assert group[0] == above[0] && above[0] in above;
    assert forall i :: 0 <= i < |group| ==> group[i] == above[i];
  }

  lemma AboveOneMore(oplog: Log, e: OplogEntry, c: int)
    requires e.rowid > c
    ensures Above(oplog + [e], c) == Above(oplog, c) + [e]
  {
    assert Front(oplog + [e]) == oplog;
  }

  /** A statement of the application leaves the oplog alone or appends one entry of the next rowid. */
  lemma ExecLogs(db: Db, stmt: Statement, relations: Relations)
    requires stmt.DeleteRow? || stmt.UpsertRow?
    requires (if stmt.DeleteRow? then stmt.key.table else stmt.target.table) in relations
    ensures var r := Exec(db, stmt);
      r.None? || (r.value.oplog == db.oplog && r.value.lastRowid == db.lastRowid) ||
      (|r.value.oplog| > 0 && r.value.oplog == db.oplog + [Last(r.value.oplog)] &&
       Last(r.value.oplog).rowid == db.lastRowid + 1 == r.value.lastRowid &&
       Last(r.value.oplog).key.table in relations)
  {
  }

  lemma WriteKeeps(t: Trace, stmt: Statement, start: int, relations: Relations)
    requires Inv(t, start, relations) && Allowed(t.s, LocalWrite(stmt), relations)
    ensures Inv(Write(t, stmt), start, relations)
  {
    var u, db := Write(t, stmt), t.s.db;
    ExecLogs(db, stmt, relations);
    if u.s.db.oplog != db.oplog {
      var e := Last(u.s.db.oplog);
      assert u.s.db.oplog[|db.oplog|..] == [e];
      assert u == t.(s := t.s.(db := u.s.db), logged := t.logged + [e]);
      AppendKeeps(t, u.s, e, start, relations);
    } else {
      SameOplogKeeps(t, u.s, start, relations);
    }
  }

  lemma AppendKeeps(t: Trace, u: State, e: OplogEntry, start: int, relations: Relations)
    requires Inv(t, start, relations) && u == t.s.(db := u.db) && u.db.oplog == t.s.db.oplog + [e]
    requires e.rowid == t.s.db.lastRowid + 1 == u.db.lastRowid < TWO_31 && e.key.table in relations
    ensures Inv(t.(s := u, logged := t.logged + [e]), start, relations)
  {
    AboveOneMore(t.s.db.oplog, e, Cursor(t.s));
    assert Full(t.(s := u, logged := t.logged + [e])) == Full(t) + [e];
    GoodStateGrows(t.s, u, e, relations);
  }

  /** Steps that keep the oplog and the cursor, and move the acknowledged positions as the code does. */
  lemma SameOplogKeeps(t: Trace, u: State, start: int, relations: Relations)
    requires Inv(t, start, relations)
    requires u.db.oplog == t.s.db.oplog && u.db.lastRowid == t.s.db.lastRowid && Cursor(u) == Cursor(t.s)
    requires u.lastAckd <= u.lastSent && (u.lastSent <= t.s.lastSent || u.lastSent <= Cursor(t.s))
    ensures Inv(t.(s := u), start, relations)
  {
    assert Full(t.(s := u)) == Full(t);
  }

  lemma GoodStateGrows(s: State, u: State, e: OplogEntry, relations: Relations)
    requires GoodState(s, relations) && u == s.(db := u.db) && u.db.oplog == s.db.oplog + [e]
    requires e.rowid == s.db.lastRowid + 1 == u.db.lastRowid < TWO_31 && e.key.table in relations
    ensures GoodState(u, relations)
  {
    forall i | 0 <= i < |s.db.oplog|
      ensures s.db.oplog[i].rowid < e.rowid
    {
      assert s.db.oplog[i] in s.db.oplog;
    }
  }

  lemma CollectKeeps(t: Trace, ts: int, start: int, relations: Relations)
    requires Inv(t, start, relations) && Allowed(t.s, Collect(ts), relations)
    ensures Inv(t.(s := CollectStamp(t.s, ts)), start, relations)
  {
    CollectKeepsAbove(t.s.db.oplog, ts, Cursor(t.s));
  }

  /** A run starts with nothing sent and with the writes already in the oplog above the cursor. */
  function Begin(s: State): Trace {
    Trace(s, Above(s.db.oplog, Cursor(s)), [], [])
  }

  /** The transactions sent carry, in rowid order and once each, exactly the writes logged up to the
      cursor; the logged writes after those are above the cursor. */
  predicate GapFree(t: Trace, relations: Relations) {
    |t.past| <= |t.logged| && Ascending(t.logged) && SameWrites(t.past, t.logged[..|t.past|]) &&
    (forall i :: 0 <= i < |t.logged| ==> (i < |t.past| <==> t.logged[i].rowid <= Cursor(t.s))) &&
    Known(relations, t.past) && AllChanges(t.sent) == EntriesToChanges(t.past, relations) &&
    forall i, j :: 0 <= i < j < |t.sent| ==> Position(t.sent[i].lsn) < Position(t.sent[j].lsn)
  }

  lemma BeginsWell(s: State, relations: Relations)
    requires GoodState(s, relations)
    ensures Inv(Begin(s), Cursor(s), relations)
  {
    assert Full(Begin(s)) == Begin(s).logged;
  }

  /** The cursor divides the logged writes into those enqueued and those not. */
  lemma CursorDivides(t: Trace, start: int, relations: Relations)
    requires Inv(t, start, relations)
    ensures GapFree(t, relations)
  {
    var above := Above(t.s.db.oplog, Cursor(t.s));
    AboveIsAbove(t.s.db.oplog, Cursor(t.s));
    forall i | 0 <= i < |t.logged|
      ensures SameWrite(Full(t)[i], t.logged[i])
      ensures i >= |t.past| ==> Full(t)[i] == above[i - |t.past|] && Full(t)[i].rowid > Cursor(t.s)
    {
      if i >= |t.past| {
        assert above[i - |t.past|] in above;
      }
    }
  }

  // ---- Sessions ----

  /** One step of a session; a start request that is accepted begins a new one at its position. */
  function SessionNext(t: Trace, step: Step, clientId: string, relations: Relations): Trace {
    var u := Next(t, step, clientId, relations);
    if Starts(t.s, step) then Begin(u.s) else u
  }

  /** Every step that the surroundings allow keeps the invariant. */
  lemma StepKeeps(t: Trace, step: Step, start: int, clientId: string, relations: Relations)
    requires Inv(t, start, relations) && Allowed(t.s, step, relations) && !Starts(t.s, step)
    ensures Inv(Next(t, step, clientId, relations), start, relations)
  {
    match step
    case LocalWrite(stmt) => WriteKeeps(t, stmt, start, relations);
    case SnapshotStep(ts) => SnapKeeps(t, start, clientId, relations, ts);
    case Incoming(ts, _, _, _, _, _) =>
      SnapKeeps(t, start, clientId, relations, ts);
      SameOplogKeeps(Snap(t, clientId, relations, ts), Next(t, step, clientId, relations).s, start, relations);
    case Collect(ts) => CollectKeeps(t, ts, start, relations);
    case _ => SameOplogKeeps(t, Next(t, step, clientId, relations).s, start, relations);
  }

  lemma SessionStepKeeps(t: Trace, step: Step, start: int, clientId: string, relations: Relations)
    returns (from: int)
    requires Inv(t, start, relations) && Allowed(t.s, step, relations)
    ensures Inv(SessionNext(t, step, clientId, relations), from, relations)
    ensures from == if Starts(t.s, step) then Cursor(Next(t, step, clientId, relations).s) else start
  {
    var u := Next(t, step, clientId, relations);
    if Starts(t.s, step) {
      from := Cursor(u.s);
      BeginsWell(u.s, relations);
    } else {
      from := start;
      StepKeeps(t, step, start, clientId, relations);
    }
  }

  function RunSessions(t: Trace, steps: seq<Step>, clientId: string, relations: Relations): Trace {
    if steps == [] then t
    else SessionNext(RunSessions(t, Front(steps), clientId, relations), Last(steps), clientId, relations)
  }

  /** Where the current session began. */
  function SessionStart(t: Trace, steps: seq<Step>, clientId: string, relations: Relations): int {
    if steps == [] then Cursor(t.s)
    else
      var before := RunSessions(t, Front(steps), clientId, relations);
      if Starts(before.s, Last(steps)) then Cursor(Next(before, Last(steps), clientId, relations).s)
      else SessionStart(t, Front(steps), clientId, relations)
  }

  predicate AllAllowed(t: Trace, steps: seq<Step>, clientId: string, relations: Relations) {
    steps == [] ||
    (AllAllowed(t, Front(steps), clientId, relations) &&
     Allowed(RunSessions(t, Front(steps), clientId, relations).s, Last(steps), relations))
  }

  lemma {:induction false} SessionsKeep(s: State, steps: seq<Step>, clientId: string, relations: Relations)
    requires GoodState(s, relations) && AllAllowed(Begin(s), steps, clientId, relations)
    ensures Inv(RunSessions(Begin(s), steps, clientId, relations),
            SessionStart(Begin(s), steps, clientId, relations), relations)
  {
    if steps == [] {
      BeginsWell(s, relations);
    } else {
      var front := Front(steps);
      SessionsKeep(s, front, clientId, relations);
      var from := SessionStepKeeps(RunSessions(Begin(s), front, clientId, relations), Last(steps),
                                   SessionStart(Begin(s), front, clientId, relations), clientId, relations);
    }
  }

  /** Gap-free enqueueing in every session of every run, whatever the interleaving of writes, snapshots,
      incoming batches, acknowledgements, collection, reconnects and requests to start and stop: from the
      position at which the session began. */
  lemma EnqueueingIsGapFree(s: State, steps: seq<Step>, clientId: string, relations: Relations)
    requires GoodState(s, relations) && AllAllowed(Begin(s), steps, clientId, relations)
    ensures var t := RunSessions(Begin(s), steps, clientId, relations);
      var start := SessionStart(Begin(s), steps, clientId, relations);
      GapFree(t, relations) && start <= Cursor(t.s) && forall i :: 0 <= i < |t.logged| ==> t.logged[i].rowid > start
  {
    var t, start := RunSessions(Begin(s), steps, clientId, relations),
      SessionStart(Begin(s), steps, clientId, relations);
    SessionsKeep(s, steps, clientId, relations);
    CursorDivides(t, start, relations);
    LoggedIsAboveStart(t, start, relations);
  }

  lemma LoggedIsAboveStart(t: Trace, start: int, relations: Relations)
    requires Inv(t, start, relations)
    ensures forall i :: 0 <= i < |t.logged| ==> t.logged[i].rowid > start
  {
    var above := Above(t.s.db.oplog, Cursor(t.s));
    AboveIsAbove(t.s.db.oplog, Cursor(t.s));
    forall i | 0 <= i < |t.logged| ensures t.logged[i].rowid > start {
      assert SameWrite(Full(t)[i], t.logged[i]);
      if i >= |t.past| { assert Full(t)[i] == above[i - |t.past|] && above[i - |t.past|] in above; }
    }
  }

  // ---- Whole runs ----

  function RunSteps(t: Trace, steps: seq<Step>, clientId: string, relations: Relations): Trace {
    if steps == [] then t else Next(RunSteps(t, Front(steps), clientId, relations), Last(steps), clientId, relations)
  }

  /** What has been enqueued and what is above the cursor are together all that was logged, in order and
      once each. */
  predicate Once(t: Trace) {
    SameWrites(Full(t), t.logged)
  }

  /** A start request goes on where the cursor is, or moves it over no entry. */
  predicate Resumes(s: State, step: Step) {
    Starts(s, step) ==>
      Above(s.db.oplog, Position(Started(s.client, step.lsn, step.lastAcknowledged, step.first).enqueued)) ==
      Above(s.db.oplog, Cursor(s))
  }

  predicate AllResume(t: Trace, steps: seq<Step>, clientId: string, relations: Relations) {
    steps == [] ||
    (AllResume(t, Front(steps), clientId, relations) &&
      Resumes(RunSteps(t, Front(steps), clientId, relations).s, Last(steps)))
  }

  /** From `t` to `u` as much is added as from `b` to `v`. */
  predicate AddsAlike(t: Trace, u: Trace, b: Trace, v: Trace) {
    u.s == v.s && u.past == t.past + v.past && b.logged <= v.logged && u.logged == t.logged + v.logged[|b.logged|..]
  }

  lemma NothingAdded(t: Trace, b: Trace, s: State)
    requires b.past == []
    ensures AddsAlike(t, t.(s := s), b, b.(s := s))
  {
    assert t.past + [] == t.past && t.logged + [] == t.logged && b.logged[|b.logged|..] == [];
  }

  lemma SnapAdds(t: Trace, b: Trace, clientId: string, relations: Relations, ts: int)
    requires b.s == t.s && b.past == []
    ensures AddsAlike(t, Snap(t, clientId, relations, ts), b, Snap(b, clientId, relations, ts))
  {
    NothingAdded(t, b, Snap(t, clientId, relations, ts).s);
    var groups: seq<Log> := Groups(Missing(AfterTagging(t.s, clientId, ts)));
    if groups != [] { assert [] + groups[0] == groups[0]; }
  }

  lemma WriteAdds(t: Trace, b: Trace, stmt: Statement)
    requires b.s == t.s && b.past == []
    ensures AddsAlike(t, Write(t, stmt), b, Write(b, stmt))
  {
    NothingAdded(t, b, t.s);
    if Exec(t.s.db, stmt).Some? {
      var oplog, was := Exec(t.s.db, stmt).value.oplog, t.s.db.oplog;
      var added := if |oplog| > |was| then oplog[|was|..] else [];
      assert (b.logged + added)[|b.logged|..] == added && t.past + [] == t.past;
    }
  }

  /** What a step adds does not depend on the history. */
  lemma NextAdds(t: Trace, b: Trace, step: Step, clientId: string, relations: Relations)
    requires b.s == t.s && b.past == []
    ensures AddsAlike(t, Next(t, step, clientId, relations), b, Next(b, step, clientId, relations))
  {
    match step
    case LocalWrite(stmt) => WriteAdds(t, b, stmt);
    case SnapshotStep(ts) => SnapAdds(t, b, clientId, relations, ts);
    case Incoming(ts, _, _, _, _, _) => SnapAdds(t, b, clientId, relations, ts);
    case _ => NothingAdded(t, b, Next(t, step, clientId, relations).s);
  }

  lemma SameNextState(t: Trace, u: Trace, step: Step, clientId: string, relations: Relations)
    requires t.s == u.s
    ensures Next(t, step, clientId, relations).s == Next(u, step, clientId, relations).s
  {
    NextAdds(t, Begin(t.s), step, clientId, relations);
    NextAdds(u, Begin(t.s), step, clientId, relations);
  }

  lemma {:induction false} SameStates(s: State, steps: seq<Step>, clientId: string, relations: Relations)
    ensures RunSteps(Begin(s), steps, clientId, relations).s == RunSessions(Begin(s), steps, clientId, relations).s
  {
    if steps != [] {
      var front, step := Front(steps), Last(steps);
      SameStates(s, front, clientId, relations);
      SameNextState(RunSteps(Begin(s), front, clientId, relations), RunSessions(Begin(s), front, clientId, relations),
                    step, clientId, relations);
    }
  }

  lemma JoinWrites(past: Log, above: Log, logged: Log, more: Log, after: Log, added: Log)
    requires SameWrites(past + above, logged) && SameWrites(after, above + added) && more == past + after
    ensures SameWrites(more, logged + added)
  {
    forall i | 0 <= i < |more| ensures SameWrite(more[i], (logged + added)[i]) {
      if i < |past| {
        assert SameWrite((past + above)[i], logged[i]);
      } else {
        assert SameWrite(after[i - |past|], (above + added)[i - |past|]);
        if i < |logged| { assert SameWrite((past + above)[i], logged[i]); }
      }
    }
  }

  /** Between start requests nothing is sent twice or left out. */
  lemma StepKeepsOnce(t: Trace, step: Step, clientId: string, relations: Relations)
    requires GoodState(t.s, relations) && Once(t) && Allowed(t.s, step, relations) && !Starts(t.s, step)
    ensures Once(Next(t, step, clientId, relations))
  {
    var b := Begin(t.s);
    BeginsWell(t.s, relations);
    StepKeeps(b, step, Cursor(t.s), clientId, relations);
    NextAdds(t, b, step, clientId, relations);
    OnceAdds(t, Next(t, step, clientId, relations), b, Next(b, step, clientId, relations));
  }

  lemma OnceAdds(t: Trace, u: Trace, b: Trace, v: Trace)
    requires b == Begin(t.s) && AddsAlike(t, u, b, v) && Once(t) && Once(v)
    ensures Once(u)
  {
    var added := v.logged[|b.logged|..];
    assert v.logged == b.logged + added;
    assert Full(u) == t.past + Full(v);
    JoinWrites(t.past, b.logged, t.logged, Full(u), Full(v), added);
  }

  predicate IsSuffix(xs: Log, ys: Log) {
    |xs| <= |ys| && xs == ys[|ys| - |xs|..]
  }

  lemma SuffixGrows(xs: Log, ys: Log, e: OplogEntry)
    requires IsSuffix(xs, ys)
    ensures IsSuffix(xs + [e], ys + [e])
  {
  }

  lemma FrontIsBelow(oplog: Log)
    requires Ascending(oplog) && oplog != []
    ensures Ascending(Front(oplog))
    ensures forall i :: 0 <= i < |Front(oplog)| ==> Front(oplog)[i].rowid < Last(oplog).rowid
  {
    assert forall i :: 0 <= i < |Front(oplog)| ==> Front(oplog)[i] == oplog[i];
  }

  lemma {:induction false} AboveIsSuffix(oplog: Log, c: int)
    requires Ascending(oplog)
    ensures IsSuffix(Above(oplog, c), oplog)
  {
    if oplog != [] {
      var front, e := Front(oplog), Last(oplog);
      FrontIsBelow(oplog);
      if e.rowid > c {
        AboveIsSuffix(front, c);
        SuffixGrows(Above(front, c), front, e);
        assert oplog == front + [e];
      } else {
        NothingAbove(front, c);
        assert Above(oplog, c) == [];
      }
    }
  }

  /** A start request keeps the count right exactly when it moves the cursor over no entry: a lower
      position sends entries again, a higher one skips them. */
  lemma StartKeepsOnceExactlyWhen(t: Trace, step: Step, clientId: string, relations: Relations)
    requires GoodState(t.s, relations) && Once(t) && Starts(t.s, step)
    ensures Once(Next(t, step, clientId, relations)) <==> Resumes(t.s, step)
  {
    var oplog, c := t.s.db.oplog, Cursor(t.s);
    var p := Position(Started(t.s.client, step.lsn, step.lastAcknowledged, step.first).enqueued);
    AboveIsSuffix(oplog, c);
    AboveIsSuffix(oplog, p);
  }

  /** A start request that asks for the first position keeps the cursor when it also names the last
      acknowledged one, and otherwise goes to the position it names. */
  lemma FirstStartGoesWhereAsked(s: State, step: Step, clientId: string, relations: Relations)
    requires Starts(s, step) && step.first
    ensures var u := Next(Begin(s), step, clientId, relations).s;
      Cursor(u) == (if step.lastAcknowledged then Cursor(s) else Position(step.lsn)) &&
      (step.lastAcknowledged ==> Resumes(s, step)) && u.db == s.db && u.client.active && u.client.queue == []
  {
  }

  /** A start request that does not ask for the first position sends all again that is still in the log. */
  lemma DefaultStartResumesExactlyWhen(s: State, step: Step, relations: Relations)
    requires GoodState(s, relations) && Starts(s, step) && !step.first
    ensures Resumes(s, step) <==> forall e :: e in s.db.oplog ==> e.rowid > Cursor(s)
  {
    DefaultIsZero();
    AboveIsAbove(s.db.oplog, 0);
    AboveIsAbove(s.db.oplog, Cursor(s));
    AboveIsSuffix(s.db.oplog, 0);
    AboveIsSuffix(s.db.oplog, Cursor(s));
    if forall e :: e in s.db.oplog ==> e.rowid > Cursor(s) {
      AllAbove(s.db.oplog, 0);
      AllAbove(s.db.oplog, Cursor(s));
    }
  }

  lemma {:induction false} AllAbove(oplog: Log, c: int)
    requires forall e :: e in oplog ==> e.rowid > c
    ensures Above(oplog, c) == oplog
  {
    if oplog != [] {
      assert oplog == Front(oplog) + [Last(oplog)];
      AllAbove(Front(oplog), c);
    }
  }

  lemma NextKeepsOnceExactlyWhen(t: Trace, step: Step, clientId: string, relations: Relations)
    requires GoodState(t.s, relations) && Once(t) && Allowed(t.s, step, relations)
    ensures Once(Next(t, step, clientId, relations)) <==> Resumes(t.s, step)
  {
    if Starts(t.s, step) {
      StartKeepsOnceExactlyWhen(t, step, clientId, relations);
    } else {
      StepKeepsOnce(t, step, clientId, relations);
    }
  }

  /** At every point of the run. */
  predicate AlwaysOnce(t: Trace, steps: seq<Step>, clientId: string, relations: Relations) {
    Once(RunSteps(t, steps, clientId, relations)) && (steps == [] || AlwaysOnce(t, Front(steps), clientId, relations))
  }

  /** A whole run enqueues every write once, in order and with no gap, at every point of it, exactly when
      every start request goes on where the cursor is or moves it over no entry. */
  lemma {:induction false} RunIsGapFreeExactlyWhen(s: State, steps: seq<Step>, clientId: string, relations: Relations)
    requires GoodState(s, relations) && AllAllowed(Begin(s), steps, clientId, relations)
    ensures AlwaysOnce(Begin(s), steps, clientId, relations) <==> AllResume(Begin(s), steps, clientId, relations)
  {
    if steps == [] {
      assert Full(Begin(s)) == Begin(s).logged;
    } else {
      var front, t := Front(steps), RunSteps(Begin(s), Front(steps), clientId, relations);
      RunIsGapFreeExactlyWhen(s, front, clientId, relations);
      GoodAfter(s, front, clientId, relations);
      if Once(t) {
        NextKeepsOnceExactlyWhen(t, Last(steps), clientId, relations);
      } else {
        assert !AlwaysOnce(Begin(s), front, clientId, relations);
      }
    }
  }

  lemma GoodAfter(s: State, steps: seq<Step>, clientId: string, relations: Relations)
    requires GoodState(s, relations) && AllAllowed(Begin(s), steps, clientId, relations)
    ensures RunSteps(Begin(s), steps, clientId, relations).s == RunSessions(Begin(s), steps, clientId, relations).s
    ensures GoodState(RunSteps(Begin(s), steps, clientId, relations).s, relations)
  {
    SessionsKeep(s, steps, clientId, relations);
    SameStates(s, steps, clientId, relations);
  }

  // ---- What a snapshot leaves ----

  /** On an open and active client a snapshot that finds anything to send moves the cursor on. */
  lemma SnapshotAdvances(s: State, clientId: string, relations: Relations, ts: int)
    requires GoodState(s, relations) && !s.client.closed && s.client.active
    ensures Known(relations, Missing(AfterTagging(s, clientId, ts)))
    ensures var (u, r) := TakeSnapshot(s, clientId, relations, ts);
      r == Done && if Above(s.db.oplog, Cursor(s)) == [] then u.client == s.client else Cursor(u) > Cursor(s)
  {
    TaggingKeeps(s, clientId, ts, relations);
    var t := AfterTagging(s, clientId, ts);
    AboveKeepsWrites(t.db.oplog, s.db.oplog, Cursor(s));
    GroupsCutAtStamps(Missing(t));
    if Groups(Missing(t)) != [] {
      FirstGroupMoves(t, relations);
      assert Missing(t) != [];
    }
  }

  /** On an open and active client nothing is left to send after a snapshot exactly when all that was
      missing has one time: a snapshot enqueues one transaction only. */
  lemma SnapshotSendsAllExactlyWhen(s: State, clientId: string, relations: Relations, ts: int)
    requires GoodState(s, relations) && !s.client.closed && s.client.active
    ensures Known(relations, Missing(AfterTagging(s, clientId, ts)))
    ensures var missing := Missing(AfterTagging(s, clientId, ts));
      Missing(TakeSnapshot(s, clientId, relations, ts).0) == [] <==>
      forall i, j :: 0 <= i < j < |missing| ==> missing[i].Millis() == missing[j].Millis()
  {
    TaggingKeeps(s, clientId, ts, relations);
    var t := AfterTagging(s, clientId, ts);
    var missing, groups := Missing(t), Groups(Missing(t));
    GroupsCutAtStamps(missing);
    if groups != [] {
      FirstGroupMoves(t, relations);
      var u := TakeSnapshot(s, clientId, relations, ts).0;
      AllStamped(u.db.oplog, Cursor(u));
      assert Missing(u) == missing[|groups[0]|..];
      OneGroupExactlyWhen(missing, groups);
    }
  }

  lemma OneGroupExactlyWhen(entries: Log, groups: seq<Log>)
    requires CutsAtStamps(entries, groups) && groups != [] && groups[0] <= entries
    ensures |groups[0]| == |entries| <==>
            forall i, j :: 0 <= i < j < |entries| ==> entries[i].Millis() == entries[j].Millis()
  {
    if |groups[0]| < |entries| {
      OneGroup(groups);
      TwoGroups(groups);
      assert entries[0] == groups[0][0] && entries[|groups[0]|] == (groups[0] + groups[1])[|groups[0]|] == groups[1][0];
    } else {
      assert OneStamp(groups[0]) && entries == groups[0];
    }
  }

  lemma {:induction false} TwoGroups(groups: seq<Log>)
    requires |groups| >= 2
    ensures groups[0] + groups[1] <= Flatten(groups)
  {
    if |groups| > 2 {
      TwoGroups(Front(groups));
    } else {
      OneGroup(Front(groups));
    }
  }

  lemma OneGroup(groups: seq<Log>)
    ensures |groups| == 1 ==> Flatten(groups) == groups[0]
  {
    if |groups| == 1 {
      assert Front(groups) == [];
      assert [] + Last(groups) == groups[0];
    }
  }

  /** An incoming batch, stored or not, is a step of a run: if the snapshot before it fails it is that
      snapshot; otherwise rows, tags and triggers change, and when a statement failed only the position
      in memory. */
  lemma BatchIsStep(t: Trace, clientId: string, relations: Relations, ts: int, incoming: Log, origin: string,
                    lsn: seq<Byte>, r: Outcome, after: Db)
    requires Ready(t, clientId, relations, ts)
    ensures var (s, taken) := TakeSnapshot(t.s, clientId, relations, ts);
      (taken != Done ==> Next(t, SnapshotStep(ts), clientId, relations).s == s) &&
      (taken == Done && Stored(s.db, MergedWith(s, clientId, incoming, origin), lsn, r, after) ==>
         Next(t, Incoming(ts, after.rows, after.shadow, after.triggers, after.lsn, lsn), clientId, relations).s ==
         s.(db := after, lsn := lsn))
  {
  }

  // ---- Acknowledgements and collection ----

  /** An accepted acknowledgement is what later positions are measured by, and so is an accepted sending. */
  lemma PositionsBind(s: State, p: int, q: int, isAck: bool)
    ensures AckPosition(s, p, true).1 == Done ==>
      (AckPosition(AckPosition(s, p, true).0, q, isAck).1 == Done <==> p <= q && (isAck ==> q <= s.lastSent))
    ensures AckPosition(s, p, false).1 == Done ==>
      (AckPosition(AckPosition(s, p, false).0, q, isAck).1 == Done <==> s.lastAckd <= q && (isAck ==> q <= p))
    ensures AckPosition(s, p, isAck).0.db == s.db && AckPosition(s, p, isAck).0.client == s.client &&
            AckPosition(s, p, isAck).0.lsn == s.lsn
    ensures AckPosition(s, p, isAck).1 != Done ==> AckPosition(s, p, isAck).0 == s
  {
  }

  lemma {:induction false} StampIsTaken(oplog: Log, ts: int, e: OplogEntry)
    requires Ascending(oplog)
    ensures Ascending(WithoutStamp(oplog, ts))
    ensures e in WithoutStamp(oplog, ts) <==> e in oplog && e.timestamp != Some(ts)
  {
    if oplog != [] {
      var front, last := Front(oplog), Last(oplog);
      assert oplog == front + [last] && Ascending(front);
      StampIsTaken(front, ts, e);
      var rest := WithoutStamp(front, ts);
      forall m | 0 <= m < |rest| ensures rest[m].rowid < last.rowid {
        StampIsTaken(front, ts, rest[m]);
      }
    }
  }

  /** Collection takes exactly the entries of its stamp out of the oplog, leaves the others in order and
      changes nothing else. */
  lemma CollectTakesExactly(s: State, ts: int, e: OplogEntry)
    requires Ascending(s.db.oplog)
    ensures var t := CollectStamp(s, ts);
      Ascending(t.db.oplog) && (e in t.db.oplog <==> e in s.db.oplog && e.timestamp != Some(ts)) &&
      t.(db := t.db.(oplog := s.db.oplog)) == s
  {
    StampIsTaken(s.db.oplog, ts, e);
  }
}
