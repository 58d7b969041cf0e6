/** What a peer sees of every run of the sending side: sessions are well ordered, and whatever was
    handed to the socket arrives. */
module OutboundRuns {
  import opened Types
  import opened Lsn
  import opened RowCodec
  import opened Messages
  import opened Stream
  import opened Outbound

  function RunAll(codec: Codec, s: Client, actions: seq<Action>): (u: Client)
    requires Valid(s) && forall a :: a in actions ==> Proper(a)
    ensures Valid(u)
  {
    if actions == [] then s
    else
      var before := RunAll(codec, s, actions[..|actions| - 1]);
      StepKeepsValid(codec, before, actions[|actions| - 1]);
      Step(codec, before, actions[|actions| - 1])
  }

  lemma StepKeepsValid(codec: Codec, s: Client, a: Action)
    requires Valid(s) && Proper(a)
    ensures Valid(Step(codec, s, a))
  {
    match a
    case Push =>
      if s.queue != [] {
        AnnouncingKeeps(s.(queue := []), s.queue[0].changes);
        AnnouncedAreKeyed(s.(queue := []), s.queue[0].changes);
      }
    case Enqueue(t) => assert (s.queue + [t])[..|s.queue|] == s.queue;
    case _ =>
  }

  /** A client is never connected anew while its outbound side still counts as active. */
  predicate Allowed(s: Client, a: Action) {
    Proper(a) && (a.DoConnect? && !s.socket ==> s.status != ACTIVE)
  }

  predicate AllAllowed(codec: Codec, s: Client, actions: seq<Action>)
    requires Valid(s) && forall a :: a in actions ==> Proper(a)
  {
    actions == [] ||
    (AllAllowed(codec, s, actions[..|actions| - 1]) &&
     Allowed(RunAll(codec, s, actions[..|actions| - 1]), actions[|actions| - 1]))
  }

  // ---- Sessions ----

  predicate Boundary(w: Written) {
    w.Connected? || w.StartResp?
  }

  /** The last start on the current socket has not been answered by a stop. */
  predicate Opened(ws: seq<Written>) {
    ws != [] &&
    var w := ws[|ws| - 1];
    w.StartResp? || (!w.Connected? && !w.StopResp? && Opened(ws[..|ws| - 1]))
  }

  /** How many messages of the current session announce this relation. */
  function Announcements(ws: seq<Written>, id: nat): nat {
    if ws == [] || Boundary(ws[|ws| - 1]) then 0
    else
      Announcements(ws[..|ws| - 1], id) +
      if ws[|ws| - 1].RelationMessage? && ws[|ws| - 1].relation.id == id then 1 else 0
  }

  predicate Uses(op: SatTransOp, id: nat) {
    (op.insert.Some? && op.insert.value.relationId == id) ||
    (op.update.Some? && op.update.value.relationId == id) ||
    (op.delete.Some? && op.delete.value.relationId == id)
  }

  ghost predicate Prepared(ws: seq<Written>, ops: seq<SatTransOp>) {
    Opened(ws) && forall i: nat, id: nat :: i < |ops| && Uses(ops[i], id) ==> Announcements(ws, id) == 1
  }

  /** Every operation log comes while its session is open, after exactly one message for each relation it uses. */
  ghost predicate WellOrdered(ws: seq<Written>) {
    ws == [] ||
    (WellOrdered(ws[..|ws| - 1]) &&
     (ws[|ws| - 1].OpLogMessage? ==> Prepared(ws[..|ws| - 1], ws[|ws| - 1].log.ops)))
  }

  ghost predicate Synced(s: Client) {
    Opened(s.written) && forall id: nat :: Announcements(s.written, id) == if id in s.relations then 1 else 0
  }

  ghost predicate Orderly(s: Client) {
    WellOrdered(s.written) && (s.status == ACTIVE && s.socket ==> Synced(s))
  }

  lemma OneMore(ws: seq<Written>, w: Written)
    ensures (ws + [w])[..|ws + [w]| - 1] == ws && (ws + [w])[|ws + [w]| - 1] == w
  {
  }

  lemma AnnounceKeepsOrder(s: Client, r: Relation)
    requires Orderly(s) && s.status == ACTIVE && s.socket
    ensures AnnounceRelation(s, r).ok && Orderly(AnnounceRelation(s, r).client)
  {
    OneMore(s.written, RelationMessage(Announcement(r)));
  }

  lemma {:induction false} AnnouncingKeepsOrder(s: Client, changes: seq<Change>)
    requires Orderly(s) && s.status == ACTIVE && s.socket
    ensures Announcing(s, changes).ok && Orderly(Announcing(s, changes).client)
  {
    if changes != [] {
      var front := changes[..|changes| - 1];
      AnnouncingKeepsOrder(s, front);
      AnnouncingKeeps(s, front);
      AnnounceKeepsOrder(Announcing(s, front).client, changes[|changes| - 1].relation);
    }
  }

  lemma {:induction false} NothingWritten(s: Client, changes: seq<Change>)
    requires !s.socket
    ensures Announcing(s, changes).client.written == s.written
  {
    if changes != [] {
      NothingWritten(s, changes[..|changes| - 1]);
      AnnouncingKeeps(s, changes[..|changes| - 1]);
    }
  }

  /** The operations of a transaction use only relations of the map they were made with. */
  lemma OpsUseRelations(codec: Codec, t: Transaction, relations: RelationMap, i: nat, id: nat)
    requires Sendable(t, relations) && i < |t.changes| + 2
    ensures Uses(TransactionOps(codec, t, relations)[i], id) ==> id in relations
  {
    var ops := TransactionOps(codec, t, relations);
    if i == 0 {
      assert ops[0] == BeginOp(t);
    } else if i <= |t.changes| {
      assert ops[i] == ChangeToOp(codec, t.changes[i - 1], relations);
    } else {
      assert ops[i] == COMMIT_OP;
    }
  }

  lemma SendKeepsOrder(codec: Codec, s: Client, t: Transaction)
    requires Orderly(s) && s.status == ACTIVE && Keyed(s.relations) && 0 <= t.commitTimestamp
    ensures Orderly(SendTransaction(codec, s, t).client)
  {
    AnnouncingKeeps(s, t.changes);
    if s.socket {
      AnnouncingKeepsOrder(s, t.changes);
      var u := Announcing(s, t.changes).client;
      AnnouncedIsSendable(s, t);
      var ops := TransactionOps(codec, t, u.relations);
      forall i: nat, id: nat | i < |ops| && Uses(ops[i], id) ensures Announcements(u.written, id) == 1 {
        OpsUseRelations(codec, t, u.relations, i, id);
      }
      OneMore(u.written, OpLogMessage(SatOpLog(ops)));
    } else {
      NothingWritten(s, t.changes);
    }
  }

  lemma StartKeepsOrder(s: Client, lsn: seq<Byte>, lastAcknowledged: bool, first: bool)
    requires Orderly(s)
    ensures Orderly(Starting(s, lsn, lastAcknowledged, first).client)
  {
    OneMore(s.written, if s.status == STOPPED then StartResp else ErrorResp);
  }

  lemma StopKeepsOrder(s: Client)
    requires Orderly(s)
    ensures Orderly(Stopping(s).client)
  {
    OneMore(s.written, if s.status == ACTIVE then StopResp else ErrorResp);
  }

  lemma StepKeepsOrder(codec: Codec, s: Client, a: Action)
    requires Valid(s) && Orderly(s) && Allowed(s, a)
    ensures Orderly(Step(codec, s, a))
  {
    match a
    case Push =>
      if s.status == ACTIVE && s.queue != [] {
        TimelyHead(s.queue);
        SendKeepsOrder(codec, s.(queue := []), s.queue[0]);
      }
    case DoConnect => OneMore(s.written, Connected);
    case StartReq(lsn, lastAcknowledged, first) => StartKeepsOrder(s, lsn, lastAcknowledged, first);
    case StopReq => StopKeepsOrder(s);
    case _ =>
  }

  /** In every run, each operation log is written while outbound replication is active and follows, in
      its session, exactly one message for each relation it uses. */
  lemma {:induction false} SessionsAreWellOrdered(codec: Codec, actions: seq<Action>)
    requires forall a :: a in actions ==> Proper(a)
    requires AllAllowed(codec, START, actions)
    ensures Orderly(RunAll(codec, START, actions))
  {
    if actions != [] {
      var front := actions[..|actions| - 1];
      SessionsAreWellOrdered(codec, front);
      StepKeepsOrder(codec, RunAll(codec, START, front), actions[|actions| - 1]);
    }
  }

  // ---- The peer ----

  /** The other side of the socket, run by the receiving half of the same client. */
  datatype Peer = Peer(status: ReplicationStatus, inbound: Inbound)

  function Fresh(status: ReplicationStatus, emitted: seq<Transaction>): Peer {
    Peer(status, Inbound(map[], [], emitted))
  }

  /** A peer that is always in the state that a message expects, as far as messages go: answers take it to
      their state.  None stands for an error: a relation outside replication, or an operation that cannot be
      read. */
  function Receive(codec: Codec, p: Peer, w: Written): Option<Peer> {
    match w
    case Connected => Some(Fresh(STOPPED, p.inbound.emitted))
    case StartResp => Some(Fresh(ACTIVE, p.inbound.emitted))
    case StopResp => Some(p.(status := STOPPED))
    case ErrorResp => Some(p)
    case RelationMessage(r) =>
      if p.status == ACTIVE then Some(p.(inbound := p.inbound.(relations := p.inbound.relations[r.id := r]))) else None
    case OpLogMessage(log) =>
      var fed := FeedAll(codec, p.inbound, log.ops);
      if fed.None? then None else Some(p.(inbound := fed.value))
  }

  function ReceiveAll(codec: Codec, ws: seq<Written>): Option<Peer> {
    if ws == [] then Some(Fresh(STOPPED, []))
    else
      var before := ReceiveAll(codec, ws[..|ws| - 1]);
      if before.None? then None else Receive(codec, before.value, ws[|ws| - 1])
  }

  lemma ReceiveOneMore(codec: Codec, ws: seq<Written>, w: Written)
    ensures var before := ReceiveAll(codec, ws);
      ReceiveAll(codec, ws + [w]) == if before.None? then None else Receive(codec, before.value, w)
  {
    OneMore(ws, w);
  }

  /** The relations as the peer learns them. */
  function Announced(relations: RelationMap): RelationMap {
    map id | id in relations :: Announcement(relations[id])
  }

  predicate Within(relations: RelationMap, schema: RelationMap) {
    forall id :: id in relations ==> id in schema && relations[id] == schema[id]
  }

  /** The transaction names its relations as the schema does, and its records fit their columns. */
  predicate Conforms(t: Transaction, schema: RelationMap) {
    forall i :: 0 <= i < |t.changes| ==>
      var c := t.changes[i];
      c.relation.id in schema && schema[c.relation.id] == c.relation &&
      Fitting(c.record, c.relation.columns) && Fitting(c.oldRecord, c.relation.columns)
  }

  predicate AllConform(txns: seq<Transaction>, schema: RelationMap) {
    txns == [] || (AllConform(txns[..|txns| - 1], schema) && Conforms(txns[|txns| - 1], schema))
  }

  lemma {:induction false} HeadConforms(txns: seq<Transaction>, schema: RelationMap)
    requires AllConform(txns, schema) && txns != []
    ensures Conforms(txns[0], schema)
  {
    if |txns| > 1 { HeadConforms(txns[..|txns| - 1], schema); }
  }

  function Delivered(sent: seq<Transaction>, schema: RelationMap): seq<Transaction>
    requires AllConform(sent, schema)
  {
    if sent == [] then []
    else Delivered(sent[..|sent| - 1], schema) + [ArrivedTransaction(sent[|sent| - 1], Announced(schema))]
  }

  predicate Listening(codec: Codec, s: Client) {
    var p := ReceiveAll(codec, s.written);
    p.Some? && p.value.status == ACTIVE && p.value.inbound.relations == Announced(s.relations)
  }

  /** All that was handed over has arrived, and an active sender and its peer agree on the relations. */
  predicate Arriving(codec: Codec, schema: RelationMap, s: Client) {
    AllConform(s.queue, schema) && AllConform(s.sent, schema) && Within(s.relations, schema) &&
    var p := ReceiveAll(codec, s.written);
    p.Some? && p.value.inbound.open == [] && p.value.inbound.emitted == Delivered(s.sent, schema) &&
    (s.status == ACTIVE && s.socket ==> Listening(codec, s))
  }

  lemma AnnounceArrives(codec: Codec, schema: RelationMap, s: Client, r: Relation)
    requires Arriving(codec, schema, s) && r.id in schema && schema[r.id] == r
    requires s.status == ACTIVE && s.socket
    ensures Arriving(codec, schema, AnnounceRelation(s, r).client)
  {
    if r.id !in s.relations {
      ReceiveOneMore(codec, s.written, RelationMessage(Announcement(r)));
      assert Announced(s.relations[r.id := r]) == Announced(s.relations)[r.id := Announcement(r)];
    }
  }

  lemma {:induction false} AnnouncingArrives(codec: Codec, schema: RelationMap, s: Client, changes: seq<Change>)
    requires Arriving(codec, schema, s) && s.status == ACTIVE && s.socket
    requires forall i :: 0 <= i < |changes| ==>
             changes[i].relation.id in schema && schema[changes[i].relation.id] == changes[i].relation
    ensures Announcing(s, changes).ok && Arriving(codec, schema, Announcing(s, changes).client)
  {
    if changes != [] {
      var front := changes[..|changes| - 1];
      AnnouncingArrives(codec, schema, s, front);
      AnnouncingKeeps(s, front);
      assert changes[|changes| - 1].relation.id in schema;
      AnnounceArrives(codec, schema, Announcing(s, front).client, changes[|changes| - 1].relation);
    }
  }

  lemma {:induction false} RelationsStayWithin(s: Client, changes: seq<Change>, schema: RelationMap)
    requires Within(s.relations, schema)
    requires forall i :: 0 <= i < |changes| ==>
             changes[i].relation.id in schema && schema[changes[i].relation.id] == changes[i].relation
    ensures Within(Announcing(s, changes).client.relations, schema)
  {
    if changes != [] {
      RelationsStayWithin(s, changes[..|changes| - 1], schema);
      assert changes[|changes| - 1].relation.id in schema;
    }
  }

  lemma ConformingIsReceivable(t: Transaction, relations: RelationMap, schema: RelationMap)
    requires Conforms(t, schema) && Within(relations, schema) && Sendable(t, relations)
    ensures AllReceivable(t.changes, relations, Announced(relations))
  {
    forall i | 0 <= i < |t.changes| ensures Receivable(t.changes[i], relations, Announced(relations)) {
      var c := t.changes[i];
      assert relations[c.relation.id] == c.relation;
    }
  }

  lemma ArrivesAsInSchema(t: Transaction, relations: RelationMap, schema: RelationMap)
    requires Conforms(t, schema) && Within(relations, schema) && Sendable(t, relations)
    ensures ArrivedTransaction(t, Announced(relations)) == ArrivedTransaction(t, Announced(schema))
  {
    var xs, ys := ArrivedChanges(t.changes, Announced(relations)), ArrivedChanges(t.changes, Announced(schema));
    forall i | 0 <= i < |t.changes| ensures xs[i] == ys[i] {
      assert t.changes[i].relation.id in relations;
    }
    assert xs == ys;
  }

  lemma {:induction false} OneMoreSent(txns: seq<Transaction>, t: Transaction, schema: RelationMap)
    requires AllConform(txns, schema) && Conforms(t, schema)
    ensures AllConform(txns + [t], schema)
    ensures Delivered(txns + [t], schema) == Delivered(txns, schema) + [ArrivedTransaction(t, Announced(schema))]
  {
    assert (txns + [t])[..|txns + [t]| - 1] == txns;
  }

  lemma OpLogIsRead(codec: Codec, schema: RelationMap, p: Peer, relations: RelationMap, t: Transaction)
    requires Invertible(codec) && p.inbound.open == [] && p.inbound.relations == Announced(relations)
    requires Conforms(t, schema) && Within(relations, schema) && Sendable(t, relations)
    ensures Receive(codec, p, OpLogMessage(SatOpLog(TransactionOps(codec, t, relations)))) ==
            Some(p.(inbound := p.inbound.(emitted := p.inbound.emitted + [ArrivedTransaction(t, Announced(schema))])))
  {
    ConformingIsReceivable(t, relations, schema);
    TransactionArrives(codec, p.inbound, t, relations);
    ArrivesAsInSchema(t, relations, schema);
  }

  lemma OpLogArrives(codec: Codec, schema: RelationMap, s: Client, t: Transaction)
    requires Invertible(codec) && Arriving(codec, schema, s) && s.status == ACTIVE && s.socket
    requires Conforms(t, schema) && Sendable(t, s.relations)
    ensures var w := OpLogMessage(SatOpLog(TransactionOps(codec, t, s.relations)));
      Arriving(codec, schema, s.(written := s.written + [w], sent := s.sent + [t]))
  {
    OpLogIsRead(codec, schema, ReceiveAll(codec, s.written).value, s.relations, t);
    OneMoreSent(s.sent, t, schema);
    ReceiveOneMore(codec, s.written, OpLogMessage(SatOpLog(TransactionOps(codec, t, s.relations))));
  }

  lemma SendArrives(codec: Codec, schema: RelationMap, s: Client, t: Transaction)
    requires Invertible(codec) && Arriving(codec, schema, s) && s.status == ACTIVE
    requires Keyed(s.relations) && 0 <= t.commitTimestamp && Conforms(t, schema)
    ensures Arriving(codec, schema, SendTransaction(codec, s, t).client)
    ensures s.socket ==> SendTransaction(codec, s, t).client.sent == s.sent + [t]
  {
    AnnouncingKeeps(s, t.changes);
    RelationsStayWithin(s, t.changes, schema);
    if s.socket {
      AnnouncingArrives(codec, schema, s, t.changes);
      AnnouncedIsSendable(s, t);
      OpLogArrives(codec, schema, Announcing(s, t.changes).client, t);
    } else {
      NothingWritten(s, t.changes);
    }
  }

  predicate ActionConforms(a: Action, schema: RelationMap) {
    a.Enqueue? ==> Conforms(a.t, schema)
  }

  lemma StartArrives(codec: Codec, schema: RelationMap, s: Client, lsn: seq<Byte>, lastAcknowledged: bool, first: bool)
    requires Arriving(codec, schema, s)
    ensures Arriving(codec, schema, Starting(s, lsn, lastAcknowledged, first).client)
  {
    ReceiveOneMore(codec, s.written, if s.status == STOPPED then StartResp else ErrorResp);
  }

  lemma StopArrives(codec: Codec, schema: RelationMap, s: Client)
    requires Arriving(codec, schema, s)
    ensures Arriving(codec, schema, Stopping(s).client)
  {
    ReceiveOneMore(codec, s.written, if s.status == ACTIVE then StopResp else ErrorResp);
  }

  lemma StepArrives(codec: Codec, schema: RelationMap, s: Client, a: Action)
    requires Invertible(codec) && Valid(s) && Arriving(codec, schema, s) && Allowed(s, a) && ActionConforms(a, schema)
    ensures Arriving(codec, schema, Step(codec, s, a))
  {
    match a
    case Push =>
      if s.status == ACTIVE && s.queue != [] {
        TimelyHead(s.queue);
        HeadConforms(s.queue, schema);
        SendArrives(codec, schema, s.(queue := []), s.queue[0]);
      }
    case Enqueue(t) => assert (s.queue + [t])[..|s.queue|] == s.queue;
    case DoConnect => ReceiveOneMore(codec, s.written, Connected);
    case StartReq(lsn, lastAcknowledged, first) => StartArrives(codec, schema, s, lsn, lastAcknowledged, first);
    case StopReq => StopArrives(codec, schema, s);
    case _ =>
  }

  lemma {:induction false} MessagesArrive(codec: Codec, schema: RelationMap, actions: seq<Action>)
    requires Invertible(codec)
    requires forall a :: a in actions ==> Proper(a) && ActionConforms(a, schema)
    requires AllAllowed(codec, START, actions)
    ensures Arriving(codec, schema, RunAll(codec, START, actions))
  {
    if actions != [] {
      var front := actions[..|actions| - 1];
      MessagesArrive(codec, schema, front);
      StepArrives(codec, schema, RunAll(codec, START, front), actions[|actions| - 1]);
    }
  }

  /** What arrives of a transaction: its time, position and changes in their places, each with the kind, the
      tags, the table and the column names and types it was sent with, and with the values of its records,
      missing ones as null. */
  lemma DeliveredIsSent(t: Transaction, schema: RelationMap, i: nat, j: nat)
    requires Conforms(t, schema) && i < |t.changes|
    ensures var arrived := ArrivedTransaction(t, Announced(schema));
      arrived.commitTimestamp == t.commitTimestamp && arrived.lsn == t.lsn && |arrived.changes| == |t.changes| &&
      var (c, d) := (t.changes[i], arrived.changes[i]);
      d.optype == c.optype && d.tags == c.tags && d.relation.id == c.relation.id &&
      d.relation.table == c.relation.table && SameColumns(d.relation.columns, c.relation.columns) &&
      (c.optype.DELETE? ==> d.record.None?) && (c.optype.INSERT? ==> d.oldRecord.None?) &&
      (!c.optype.DELETE? ==> (d.record.Some? <==> c.record.Some?)) &&
      (!c.optype.INSERT? ==> (d.oldRecord.Some? <==> c.oldRecord.Some?)) &&
      (j < |c.relation.columns| ==>
         var column := c.relation.columns[j];
       !d.relation.columns[j].primaryKey &&
         (d.record.Some? ==>
            column.name in d.record.value && d.record.value[column.name] == ValueOf(c.record.value, column)) &&
         (d.oldRecord.Some? ==>
            column.name in d.oldRecord.value && d.oldRecord.value[column.name] == ValueOf(c.oldRecord.value, column)))
  {
    var c, d := t.changes[i], ArrivedTransaction(t, Announced(schema)).changes[i];
    if j < |c.relation.columns| {
      var columns := Announced(schema)[c.relation.id].columns;
      assert ValueOf(RowOf(c.record), columns[j]) == ValueOf(RowOf(c.record), c.relation.columns[j]);
      assert ValueOf(RowOf(c.oldRecord), columns[j]) == ValueOf(RowOf(c.oldRecord), c.relation.columns[j]);
      NormalHolds(RowOf(c.record), columns, j);
      NormalHolds(RowOf(c.oldRecord), columns, j);
    }
  }

  // ---- What the peer does itself ----

  /** What happens at the peer: it reads the next message, or it asks to start or to stop. */
  datatype Seen = Read(w: Written) | StartCalled | StopCalled

  function Reads(events: seq<Seen>): seq<Written> {
    if events == [] then []
    else Reads(events[..|events| - 1]) + if events[|events| - 1].Read? then [events[|events| - 1].w] else []
  }

  /** Outside these states a message is an error; an error answer always is. */
  predicate Expected(status: ReplicationStatus, w: Written) {
    match w
    case StartResp => status == STARTING
    case StopResp => status == STOPPING
    case RelationMessage(_) => status == ACTIVE
    case ErrorResp => false
    case _ => true
  }

  function NextStatus(status: ReplicationStatus, e: Seen): ReplicationStatus {
    match e
    case StartCalled => if status == STOPPED then STARTING else status
    case StopCalled => if status == ACTIVE then STOPPING else status
    case Read(Connected) => STOPPED
    case Read(StartResp) => ACTIVE
    case Read(StopResp) => STOPPED
    case Read(_) => status
  }

  function PeerStatus(events: seq<Seen>): ReplicationStatus {
    if events == [] then STOPPED else NextStatus(PeerStatus(events[..|events| - 1]), events[|events| - 1])
  }

  /** Asking to start forgets relations and open transactions; a call in another state is refused. */
  function See(codec: Codec, p: Peer, e: Seen): Option<Peer> {
    match e
    case StartCalled => Some(if p.status == STOPPED then Fresh(STARTING, p.inbound.emitted) else p)
    case StopCalled => Some(if p.status == ACTIVE then p.(status := STOPPING) else p)
    case Read(w) => if Expected(p.status, w) then ReadExpected(codec, p, w) else None
  }

  function ReadExpected(codec: Codec, p: Peer, w: Written): Option<Peer> {
    match w
    case Connected => Some(Fresh(STOPPED, p.inbound.emitted))
    case StartResp => Some(p.(status := ACTIVE))
    case StopResp => Some(p.(status := STOPPED))
    case ErrorResp => Some(p)
    case RelationMessage(r) => Some(p.(inbound := p.inbound.(relations := p.inbound.relations[r.id := r])))
    case OpLogMessage(log) =>
      var fed := FeedAll(codec, p.inbound, log.ops);
      if fed.None? then None else Some(p.(inbound := fed.value))
  }

  function SeeAll(codec: Codec, events: seq<Seen>): Option<Peer> {
    if events == [] then Some(Fresh(STOPPED, []))
    else
      var before := SeeAll(codec, events[..|events| - 1]);
      if before.None? then None else See(codec, before.value, events[|events| - 1])
  }

  /** Every message is read in the state that expects it. */
  predicate AllExpected(events: seq<Seen>) {
    events == [] ||
    (AllExpected(events[..|events| - 1]) &&
     (events[|events| - 1].Read? ==> Expected(PeerStatus(events[..|events| - 1]), events[|events| - 1].w)))
  }

  lemma {:induction false} ActiveIsOpened(codec: Codec, ws: seq<Written>)
    requires ReceiveAll(codec, ws).Some?
    ensures ReceiveAll(codec, ws).value.status == if Opened(ws) then ACTIVE else STOPPED
  {
    if ws != [] { ActiveIsOpened(codec, ws[..|ws| - 1]); }
  }

  /** The peer has read what the messages alone say; while it waits for its start, nothing yet. */
  predicate Alike(q: Peer, p: Peer, status: ReplicationStatus, open: bool) {
    q.status == status && (open <==> status == ACTIVE || status == STOPPING) &&
    q.inbound == if status == STARTING then Inbound(map[], [], p.inbound.emitted) else p.inbound
  }

  /** One message read. */
  lemma ReadsAlike(codec: Codec, q: Peer, p: Peer, status: ReplicationStatus, open: bool, w: Written)
    requires Alike(q, p, status, open) && p.status == (if open then ACTIVE else STOPPED)
    requires Receive(codec, p, w).Some? && (w.OpLogMessage? ==> open)
    ensures See(codec, q, Read(w)).Some? <==> Expected(status, w)
    ensures See(codec, q, Read(w)).Some? ==>
      Alike(See(codec, q, Read(w)).value, Receive(codec, p, w).value, NextStatus(status, Read(w)),
            w.StartResp? || (!w.Connected? && !w.StopResp? && open))
  {
  }

  /** One call of the peer. */
  lemma CallsAlike(codec: Codec, q: Peer, p: Peer, status: ReplicationStatus, open: bool, e: Seen)
    requires Alike(q, p, status, open) && !e.Read?
    ensures See(codec, q, e).Some? && Alike(See(codec, q, e).value, p, NextStatus(status, e), open)
  {
  }

  lemma SeesAlike(codec: Codec, q: Peer, p: Peer, events: seq<Seen>)
    requires events != []
    requires Alike(q, p, PeerStatus(events[..|events| - 1]), Opened(Reads(events[..|events| - 1])))
    requires ReceiveAll(codec, Reads(events[..|events| - 1])) == Some(p)
    requires ReceiveAll(codec, Reads(events)).Some?
    requires events[|events| - 1].Read? && events[|events| - 1].w.OpLogMessage? ==>
      Opened(Reads(events[..|events| - 1]))
    ensures var e := events[|events| - 1]; See(codec, q, e).Some? <==> (e.Read? ==> Expected(q.status, e.w))
    ensures See(codec, q, events[|events| - 1]).Some? ==>
      Alike(See(codec, q, events[|events| - 1]).value, ReceiveAll(codec, Reads(events)).value, PeerStatus(events),
            Opened(Reads(events)))
  {
    var e, front := events[|events| - 1], events[..|events| - 1];
    if e.Read? {
      ActiveIsOpened(codec, Reads(front));
      ReceiveOneMore(codec, Reads(front), e.w);
      OneMore(Reads(front), e.w);
      ReadsAlike(codec, q, p, PeerStatus(front), Opened(Reads(front)), e.w);
    } else {
      assert Reads(front) + [] == Reads(front);
      CallsAlike(codec, q, p, PeerStatus(front), Opened(Reads(front)), e);
    }
  }

  lemma ReadsInFront(codec: Codec, events: seq<Seen>)
    requires events != [] && ReceiveAll(codec, Reads(events)).Some? && WellOrdered(Reads(events))
    ensures ReceiveAll(codec, Reads(events[..|events| - 1])).Some? && WellOrdered(Reads(events[..|events| - 1]))
    ensures events[|events| - 1].Read? && events[|events| - 1].w.OpLogMessage? ==>
      Opened(Reads(events[..|events| - 1]))
    ensures events[|events| - 1].Read? && events[|events| - 1].w.RelationMessage? ==>
      Opened(Reads(events[..|events| - 1]))
  {
    var e, front := events[|events| - 1], events[..|events| - 1];
    if e.Read? {
      ReceiveOneMore(codec, Reads(front), e.w);
      OneMore(Reads(front), e.w);
      ActiveIsOpened(codec, Reads(front));
    } else {
      assert Reads(front) + [] == Reads(front);
    }
  }

  lemma {:induction false} PeerReads(codec: Codec, events: seq<Seen>)
    requires ReceiveAll(codec, Reads(events)).Some? && WellOrdered(Reads(events))
    ensures SeeAll(codec, events).Some? <==> AllExpected(events)
    ensures SeeAll(codec, events).Some? ==>
      Alike(SeeAll(codec, events).value, ReceiveAll(codec, Reads(events)).value, PeerStatus(events),
            Opened(Reads(events)))
  {
    if events != [] {
      var front := events[..|events| - 1];
      ReadsInFront(codec, events);
      PeerReads(codec, front);
      if SeeAll(codec, front).Some? {
        SeesAlike(codec, SeeAll(codec, front).value, ReceiveAll(codec, Reads(front)).value, events);
      }
    }
  }

  /** In every run of the sender, a peer that asks to start and to stop where it likes reads all that was
      written without an error exactly when every message reaches it in the state that expects it, and then
      has emitted exactly the transactions that were handed to a socket, in their order. */
  lemma EverythingSentArrives(codec: Codec, schema: RelationMap, actions: seq<Action>, events: seq<Seen>)
    requires Invertible(codec)
    requires forall a :: a in actions ==> Proper(a) && ActionConforms(a, schema)
    requires AllAllowed(codec, START, actions) && Reads(events) == RunAll(codec, START, actions).written
    ensures SeeAll(codec, events).Some? <==> AllExpected(events)
    ensures AllConform(RunAll(codec, START, actions).sent, schema)
    ensures SeeAll(codec, events).Some? ==>
      SeeAll(codec, events).value.inbound.emitted == Delivered(RunAll(codec, START, actions).sent, schema) &&
      SeeAll(codec, events).value.inbound.open == []
  {
    MessagesArrive(codec, schema, actions);
    SessionsAreWellOrdered(codec, actions);
    PeerReads(codec, events);
  }

  // ---- A peer whose calls are answered ----

  /** Answers are read while their call is waiting: each start answer after a call to start, each stop
      answer after a call to stop. */
  predicate Paired(events: seq<Seen>) {
    events == [] ||
    (Paired(events[..|events| - 1]) &&
     (events[|events| - 1] == Read(StartResp) ==> PeerStatus(events[..|events| - 1]) == STARTING) &&
     (events[|events| - 1] == Read(StopResp) ==> PeerStatus(events[..|events| - 1]) == STOPPING))
  }

  /** No call is answered by an error, and no relation is read while a call to stop waits for its answer. */
  predicate Quiet(events: seq<Seen>) {
    events == [] ||
    (Quiet(events[..|events| - 1]) && events[|events| - 1] != Read(ErrorResp) &&
     !(events[|events| - 1].Read? && events[|events| - 1].w.RelationMessage? &&
       PeerStatus(events[..|events| - 1]) == STOPPING))
  }

  lemma {:induction false} QuietIsExpected(codec: Codec, events: seq<Seen>)
    requires ReceiveAll(codec, Reads(events)).Some? && WellOrdered(Reads(events)) && Paired(events)
    ensures AllExpected(events) <==> Quiet(events)
  {
    if events != [] {
      var front := events[..|events| - 1];
      ReadsInFront(codec, events);
      QuietIsExpected(codec, front);
      PeerReads(codec, front);
    }
  }

  /** A peer whose calls are answered reads all that was written without an error exactly when no answer is
      an error and no relation message reaches it between its call to stop and the answer. */
  lemma StoppingPeerReadsExactlyWhen(codec: Codec, schema: RelationMap, actions: seq<Action>, events: seq<Seen>)
    requires Invertible(codec) && Paired(events)
    requires forall a :: a in actions ==> Proper(a) && ActionConforms(a, schema)
    requires AllAllowed(codec, START, actions) && Reads(events) == RunAll(codec, START, actions).written
    ensures SeeAll(codec, events).Some? <==> Quiet(events)
    ensures AllConform(RunAll(codec, START, actions).sent, schema)
    ensures SeeAll(codec, events).Some? ==>
      SeeAll(codec, events).value.inbound.emitted == Delivered(RunAll(codec, START, actions).sent, schema)
  {
    EverythingSentArrives(codec, schema, actions, events);
    MessagesArrive(codec, schema, actions);
    SessionsAreWellOrdered(codec, actions);
    QuietIsExpected(codec, events);
  }

  // ---- What is lost ----

  lemma {:induction false} SocketAnnounces(s: Client, changes: seq<Change>)
    requires s.socket
    ensures Announcing(s, changes).ok
  {
    if changes != [] {
      SocketAnnounces(s, changes[..|changes| - 1]);
      AnnouncingKeeps(s, changes[..|changes| - 1]);
    }
  }

  /** With a socket the head of the queue is sent, and without one nothing; the queue is empty after. */
  lemma PushEffect(codec: Codec, s: Client)
    requires Valid(s) && s.status == ACTIVE && s.queue != []
    ensures var u := Step(codec, s, Push); u.queue == [] && u.sent == s.sent + if s.socket then [s.queue[0]] else []
  {
    var q := s.(queue := []);
    TimelyHead(s.queue);
    AnnouncingKeeps(q, s.queue[0].changes);
    if s.socket { SocketAnnounces(q, s.queue[0].changes); }
  }

  /** On an open and active client a push sends all of the queue exactly when that is one transaction at
      most; of a longer queue it sends the first and drops the others. */
  lemma PushSendsAllExactlyWhen(codec: Codec, s: Client)
    requires Valid(s) && s.status == ACTIVE && s.socket
    ensures var u := Step(codec, s, Push);
      u.queue == [] && (u.sent == s.sent + s.queue <==> |s.queue| <= 1) &&
      (s.queue != [] ==> u.sent == s.sent + [s.queue[0]])
  {
    if s.queue != [] {
      PushEffect(codec, s);
      assert |s.sent + s.queue| == |s.sent| + |s.queue|;
      if |s.queue| == 1 { assert s.queue == [s.queue[0]]; }
    } else {
      assert s.sent + s.queue == s.sent;
    }
  }

  /** The step throws queued transactions away: a push of more than one or without a socket, and
      everything that begins with an empty queue. */
  predicate Loses(s: Client, a: Action) {
    match a
    case Push => s.status == ACTIVE && s.queue != [] && !(s.socket && |s.queue| == 1)
    case Close => s.queue != []
    case StartReq(_, _, _) => s.status == STOPPED && s.queue != []
    case ResetLogPositions(_, _) => s.queue != []
    case _ => false
  }

  function Accepted(s: Client, a: Action): seq<Transaction> {
    if a.Enqueue? && s.status == ACTIVE then [a.t] else []
  }

  /** All transactions that were enqueued in the run. */
  function Enqueued(codec: Codec, s: Client, actions: seq<Action>): seq<Transaction>
    requires Valid(s) && forall a :: a in actions ==> Proper(a)
  {
    if actions == [] then []
    else
      var front := actions[..|actions| - 1];
      Enqueued(codec, s, front) + Accepted(RunAll(codec, s, front), actions[|actions| - 1])
  }

  predicate NoneLoses(codec: Codec, s: Client, actions: seq<Action>)
    requires Valid(s) && forall a :: a in actions ==> Proper(a)
  {
    actions == [] ||
    (NoneLoses(codec, s, actions[..|actions| - 1]) &&
     !Loses(RunAll(codec, s, actions[..|actions| - 1]), actions[|actions| - 1]))
  }

  lemma StepAccounts(codec: Codec, s: Client, a: Action)
    requires Valid(s) && Proper(a)
    ensures var u := Step(codec, s, a);
      if Loses(s, a) then |u.sent + u.queue| < |s.sent + s.queue + Accepted(s, a)|
      else u.sent + u.queue == s.sent + s.queue + Accepted(s, a)
  {
    assert s.sent + s.queue + [] == s.sent + s.queue;
    match a
    case Push =>
      if s.status == ACTIVE && s.queue != [] {
        PushEffect(codec, s);
        if |s.queue| == 1 { assert s.queue == [s.queue[0]]; }
      }
    case Enqueue(t) => assert s.sent + (s.queue + [t]) == s.sent + s.queue + [t];
    case _ =>
  }

  /** Over a whole run everything enqueued has been handed to a socket or still waits in the queue, in
      order, exactly when no step threw anything away; what is lost once is lost for good. */
  lemma {:induction false} NothingIsLostExactlyWhen(codec: Codec, s: Client, actions: seq<Action>)
    requires Valid(s) && (forall a :: a in actions ==> Proper(a)) && s.sent == [] && s.queue == []
    ensures var u, all := RunAll(codec, s, actions), Enqueued(codec, s, actions);
      |u.sent + u.queue| <= |all| && (u.sent + u.queue == all <==> NoneLoses(codec, s, actions)) &&
      (!NoneLoses(codec, s, actions) ==> |u.sent + u.queue| < |all|)
  {
    if actions != [] {
      var front := actions[..|actions| - 1];
      NothingIsLostExactlyWhen(codec, s, front);
      StepAccounts(codec, RunAll(codec, s, front), actions[|actions| - 1]);
    }
  }

  // ---- Positions and answers ----

  /** Where an action that is accepted puts the position enqueued last. */
  function EnqueuedAfter(s: Client, a: Action): Option<seq<Byte>> {
    match a
    case Enqueue(t) => if s.status == ACTIVE then Some(t.lsn) else None
    case ResetLogPositions(sent, _) => Some(sent)
    case StartReq(lsn, lastAcknowledged, first) => Asked(s, lsn, lastAcknowledged, first)
    case _ => None
  }

  function AckAfter(s: Client, a: Action): Option<seq<Byte>> {
    match a
    case ResetLogPositions(_, ack) => Some(ack)
    case StartReq(lsn, lastAcknowledged, first) => Asked(s, lsn, lastAcknowledged, first)
    case _ => None
  }

  /** The position that an accepted start request names: its own, or the default unless it asks for the first;
      None where it asks to go on. */
  function Asked(s: Client, lsn: seq<Byte>, lastAcknowledged: bool, first: bool): Option<seq<Byte>> {
    if s.status != STOPPED || (first && lastAcknowledged) then None
    else if first then Some(lsn) else Some(DEFAULT_LOG_POS)
  }

  lemma StepMoves(codec: Codec, s: Client, a: Action)
    requires Valid(s)
    ensures var e := EnqueuedAfter(s, a); Step(codec, s, a).enqueued == if e.Some? then e.value else s.enqueued
    ensures var k := AckAfter(s, a); Step(codec, s, a).ack == if k.Some? then k.value else s.ack
  {
    if a.Push? && s.queue != [] { AnnouncingKeeps(s.(queue := []), s.queue[0].changes); }
  }

  /** The clients of a run, before each action and after the last. */
  function Trace(codec: Codec, actions: seq<Action>): (r: seq<Client>)
    requires forall a :: a in actions ==> Proper(a)
    ensures |r| == |actions| + 1 && r[|actions|] == RunAll(codec, START, actions)
    ensures forall j :: 0 <= j < |r| ==> Valid(r[j])
  {
    if actions == [] then [START]
    else Trace(codec, actions[..|actions| - 1]) + [RunAll(codec, START, actions)]
  }

  /** One step in the trace of a run. */
  predicate Moves(s: Client, a: Action, u: Client) {
    u.enqueued == (if EnqueuedAfter(s, a).Some? then EnqueuedAfter(s, a).value else s.enqueued) &&
    u.ack == if AckAfter(s, a).Some? then AckAfter(s, a).value else s.ack
  }

  lemma {:induction false} TraceMoves(codec: Codec, actions: seq<Action>, j: nat)
    requires (forall a :: a in actions ==> Proper(a)) && j < |actions|
    ensures Moves(Trace(codec, actions)[j], actions[j], Trace(codec, actions)[j + 1])
  {
    var front := actions[..|actions| - 1];
    if j < |actions| - 1 {
      TraceMoves(codec, front, j);
    } else {
      StepMoves(codec, RunAll(codec, START, front), actions[j]);
    }
  }

  lemma {:induction false} LastNamedStays(trace: seq<Client>, actions: seq<Action>, i: nat, k: nat)
    requires |trace| == |actions| + 1 && i < k <= |actions|
    requires forall j :: 0 <= j < |actions| ==> Moves(trace[j], actions[j], trace[j + 1])
    ensures EnqueuedAfter(trace[i], actions[i]).Some? &&
            (forall j :: i < j < k ==> EnqueuedAfter(trace[j], actions[j]).None?) ==>
            trace[k].enqueued == EnqueuedAfter(trace[i], actions[i]).value
    ensures AckAfter(trace[i], actions[i]).Some? &&
            (forall j :: i < j < k ==> AckAfter(trace[j], actions[j]).None?) ==>
            trace[k].ack == AckAfter(trace[i], actions[i]).value
  {
    assert Moves(trace[k - 1], actions[k - 1], trace[k - 1 + 1]);
    if i < k - 1 { LastNamedStays(trace, actions, i, k - 1); }
  }

  /** At every point of a run each position is where the last action that was accepted and names one put it. */
  lemma PositionsAreLastNamed(codec: Codec, actions: seq<Action>, i: nat, k: nat)
    requires (forall a :: a in actions ==> Proper(a)) && i < k <= |actions|
    ensures var trace := Trace(codec, actions);
      (EnqueuedAfter(trace[i], actions[i]).Some? &&
       (forall j :: i < j < k ==> EnqueuedAfter(trace[j], actions[j]).None?) ==>
       trace[k].enqueued == EnqueuedAfter(trace[i], actions[i]).value) &&
      (AckAfter(trace[i], actions[i]).Some? && (forall j :: i < j < k ==> AckAfter(trace[j], actions[j]).None?) ==>
       trace[k].ack == AckAfter(trace[i], actions[i]).value)
  {
    forall j | 0 <= j < |actions|
      ensures Moves(Trace(codec, actions)[j], actions[j], Trace(codec, actions)[j + 1])
    {
      TraceMoves(codec, actions, j);
    }
    LastNamedStays(Trace(codec, actions), actions, i, k);
  }

  predicate EndsAtPosition(s: Client) {
    s.queue != [] ==> s.enqueued == s.queue[|s.queue| - 1].lsn
  }

  lemma StepEndsAtPosition(codec: Codec, s: Client, a: Action)
    requires Valid(s) && EndsAtPosition(s)
    ensures EndsAtPosition(Step(codec, s, a))
  {
    if a.Push? && s.queue != [] { AnnouncingKeeps(s.(queue := []), s.queue[0].changes); }
  }

  /** While something waits, the position enqueued last is that of the last transaction that waits. */
  lemma {:induction false} QueueEndsAtPosition(codec: Codec, actions: seq<Action>)
    requires forall a :: a in actions ==> Proper(a)
    ensures EndsAtPosition(RunAll(codec, START, actions))
  {
    if actions != [] {
      var front := actions[..|actions| - 1];
      QueueEndsAtPosition(codec, front);
      StepEndsAtPosition(codec, RunAll(codec, START, front), actions[|actions| - 1]);
    }
  }

  /** A request on a socket gets one answer: a start is accepted exactly when stopped, a stop exactly when active,
      and what is refused changes nothing else. */
  lemma RequestsAreAnswered(codec: Codec, s: Client, a: Action)
    requires Valid(s) && s.socket && (a.StartReq? || a.StopReq?)
    ensures var u := Step(codec, s, a);
      |u.written| == |s.written| + 1 && u.written[..|s.written|] == s.written &&
      var answer := u.written[|s.written|];
      (answer == StartResp <==> a.StartReq? && s.status == STOPPED) &&
      (answer == StopResp <==> a.StopReq? && s.status == ACTIVE) &&
      (answer == StartResp ==> u.status == ACTIVE && u.queue == [] && u.relations == map[]) &&
      (answer == StopResp ==> u == s.(status := STOPPED, written := u.written)) &&
      (answer != StartResp && answer != StopResp ==> answer == ErrorResp && u == s.(written := u.written))
  {
  }

  // ---- Reconnecting ----

  function Reconnected(codec: Codec, s: Client, t: Transaction): Client
    requires Valid(s) && 0 <= t.commitTimestamp
  {
    var c := Step(codec, s, DoConnect);
    StepKeepsValid(codec, c, Enqueue(t));
    Step(codec, Step(codec, c, Enqueue(t)), Push)
  }

  lemma PushOnNewSocket(codec: Codec, q: Client)
    requires Valid(q) && q.status == ACTIVE && q.queue != [] && q.socket && !Opened(q.written)
    ensures !WellOrdered(Pushing(codec, q).client.written)
  {
    var s, t := q.(queue := []), q.queue[0];
    TimelyHead(q.queue);
    UnopenedStays(s, t.changes);
    AnnouncingKeeps(s, t.changes);
    var u := Announcing(s, t.changes).client;
    AnnouncedIsSendable(s, t);
    OneMore(u.written, OpLogMessage(SatOpLog(TransactionOps(codec, t, u.relations))));
  }

  lemma {:induction false} UnopenedStays(s: Client, changes: seq<Change>)
    requires s.socket && !Opened(s.written)
    ensures Announcing(s, changes).ok && !Opened(Announcing(s, changes).client.written)
  {
    if changes != [] {
      var front := changes[..|changes| - 1];
      UnopenedStays(s, front);
      AnnouncingKeeps(s, front);
      OneMore(Announcing(s, front).client.written, RelationMessage(Announcement(changes[|changes| - 1].relation)));
    }
  }

  /** A client that is active without a socket sends its next log outside a session. */
  lemma ReconnectedIsUnordered(codec: Codec, s: Client, t: Transaction)
    requires Valid(s) && !s.socket && s.status == ACTIVE && 0 <= t.commitTimestamp
    ensures !WellOrdered(Reconnected(codec, s, t).written)
  {
    var c := Step(codec, s, DoConnect);
    OneMore(s.written, Connected);
    StepKeepsValid(codec, c, Enqueue(t));
    PushOnNewSocket(codec, Step(codec, c, Enqueue(t)));
  }

  /** Connecting again is safe exactly when outbound replication is not active: a socket error alone
      leaves it active, and then the next operation log goes out on a socket without a session. */
  lemma ReconnectIsSafeExactlyWhen(codec: Codec, s: Client)
    requires Valid(s) && Orderly(s) && !s.socket
    ensures (forall t: Transaction :: 0 <= t.commitTimestamp ==> WellOrdered(Reconnected(codec, s, t).written)) <==>
            s.status != ACTIVE
  {
    if s.status == ACTIVE {
      ReconnectedIsUnordered(codec, s, Transaction(0, [], [], None));
    } else {
      OneMore(s.written, Connected);
      forall t: Transaction | 0 <= t.commitTimestamp ensures WellOrdered(Reconnected(codec, s, t).written) {
        assert Reconnected(codec, s, t) == Step(codec, s, DoConnect);
      }
    }
  }

  lemma StartedThenFailed(codec: Codec, lsn: seq<Byte>)
    ensures var s := Step(codec, Step(codec, Step(codec, START, DoConnect), StartReq(lsn, true, true)), SocketError);
      Valid(s) && s.status == ACTIVE && !s.socket
  {
    var c := Step(codec, START, DoConnect);
    assert c == START.(socket := true, written := [] + [Connected]);
    StepKeepsValid(codec, c, StartReq(lsn, true, true));
  }

  /** A client that is active without a socket: it was started, and then its socket failed. */
  lemma SocketErrorLeavesActive(codec: Codec, lsn: seq<Byte>, t: Transaction)
    requires 0 <= t.commitTimestamp
    ensures var s := Step(codec, Step(codec, Step(codec, START, DoConnect), StartReq(lsn, true, true)), SocketError);
      Valid(s) && s.status == ACTIVE && !s.socket && !WellOrdered(Reconnected(codec, s, t).written)
  {
    StartedThenFailed(codec, lsn);
    var s := Step(codec, Step(codec, Step(codec, START, DoConnect), StartReq(lsn, true, true)), SocketError);
    ReconnectedIsUnordered(codec, s, t);
  }
}
