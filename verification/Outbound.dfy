/** The sending side of replication over whole runs, as in
    clients/typescript/src/satellite/client.ts. */
module Outbound {
  import opened Types
  import opened Lsn
  import opened RowCodec
  import opened Messages
  import opened Stream

  /** What has been put on the wire.  Connected is not a message: it marks where a new socket begins. */
  datatype Written =
    | Connected
    | StartResp
    | StopResp
    | ErrorResp
    | RelationMessage(relation: Relation)
    | OpLogMessage(log: SatOpLog)

  /** The outbound part of the client, with everything written so far and the transactions handed over. */
  datatype Client = Client(
    status: ReplicationStatus, relations: RelationMap, queue: seq<Transaction>, enqueued: seq<Byte>, ack: seq<Byte>,
    socket: bool, written: seq<Written>, sent: seq<Transaction>)

  /** A call that may throw, and the state it leaves behind in either case. */
  datatype Outcome = Outcome(ok: bool, client: Client)

  /** A relation as its message carries it: the key columns are not marked. */
  function Announcement(r: Relation): Relation {
    Relation(r.id, r.table, seq(|r.columns|,
      i requires 0 <= i < |r.columns| => Column(r.columns[i].name, r.columns[i].ctype, false)))
  }

  predicate Timely(queue: seq<Transaction>) {
    queue == [] || (Timely(queue[..|queue| - 1]) && 0 <= queue[|queue| - 1].commitTimestamp)
  }

  lemma {:induction false} TimelyHead(queue: seq<Transaction>)
    requires Timely(queue) && queue != []
    ensures 0 <= queue[0].commitTimestamp
  {
    if |queue| > 1 { TimelyHead(queue[..|queue| - 1]); }
  }

  predicate Keyed(relations: RelationMap) {
    forall id :: id in relations ==> relations[id].id == id
  }

  predicate Valid(s: Client) {
    Keyed(s.relations) && Timely(s.queue)
  }

  // ---- Single steps ----

  /** Writing throws when there is no socket. */
  function Writing(s: Client, m: Written): Outcome {
    if s.socket then Outcome(true, s.(written := s.written + [m])) else Outcome(false, s)
  }

  /** The relation is marked as known before its message is written. */
  function AnnounceRelation(s: Client, r: Relation): Outcome {
    if r.id in s.relations then Outcome(true, s)
    else Writing(s.(relations := s.relations[r.id := r]), RelationMessage(Announcement(r)))
  }

  function Announcing(s: Client, changes: seq<Change>): Outcome {
    if changes == [] then Outcome(true, s)
    else
      var before := Announcing(s, changes[..|changes| - 1]);
      if before.ok then AnnounceRelation(before.client, changes[|changes| - 1].relation) else before
  }

  /** Announcing touches only the relations and what is written. */
  lemma {:induction false} AnnouncingKeeps(s: Client, changes: seq<Change>)
    ensures var u := Announcing(s, changes).client;
      u == s.(relations := u.relations, written := u.written)
  {
    if changes != [] { AnnouncingKeeps(s, changes[..|changes| - 1]); }
  }

  lemma {:induction false} AnnouncedAreKeyed(s: Client, changes: seq<Change>)
    requires Keyed(s.relations)
    ensures Keyed(Announcing(s, changes).client.relations)
  {
    if changes != [] { AnnouncedAreKeyed(s, changes[..|changes| - 1]); }
  }

  lemma {:induction false} AnnouncedAreKnown(s: Client, changes: seq<Change>, i: nat)
    requires i < |changes| && Announcing(s, changes).ok
    ensures changes[i].relation.id in Announcing(s, changes).client.relations
  {
    if i < |changes| - 1 { AnnouncedAreKnown(s, changes[..|changes| - 1], i); }
  }

  lemma AnnouncedIsSendable(s: Client, t: Transaction)
    requires Keyed(s.relations) && 0 <= t.commitTimestamp && Announcing(s, t.changes).ok
    ensures Sendable(t, Announcing(s, t.changes).client.relations)
  {
    AnnouncedAreKeyed(s, t.changes);
    forall i | 0 <= i < |t.changes|
      ensures t.changes[i].relation.id in Announcing(s, t.changes).client.relations
    {
      AnnouncedAreKnown(s, t.changes, i);
    }
  }

  /** The whole queue is taken out, and its first transaction is written. */
  function Pushing(codec: Codec, s: Client): Outcome
    requires Valid(s)
  {
    if s.status != ACTIVE then Outcome(false, s)
    else if s.queue == [] then Outcome(true, s)
    else
      TimelyHead(s.queue);
      SendTransaction(codec, s.(queue := []), s.queue[0])
  }

  function SendTransaction(codec: Codec, s: Client, t: Transaction): Outcome
    requires Keyed(s.relations) && 0 <= t.commitTimestamp
  {
    var announced := Announcing(s, t.changes);
    if !announced.ok then announced
    else
      AnnouncedIsSendable(s, t);
      var written := Writing(announced.client,
        OpLogMessage(SatOpLog(TransactionOps(codec, t, announced.client.relations))));
      if written.ok then Outcome(true, written.client.(sent := s.sent + [t])) else written
  }

  function Enqueueing(s: Client, t: Transaction): Outcome {
    if s.status != ACTIVE then Outcome(false, s) else Outcome(true, s.(queue := s.queue + [t], enqueued := t.lsn))
  }

  function Reset(s: Client, status: ReplicationStatus): Client {
    s.(status := status, relations := map[], queue := [])
  }

  /** Both positions are set as the request asks, and a fresh session begins. */
  function Starting(s: Client, lsn: seq<Byte>, lastAcknowledged: bool, first: bool): Outcome {
    if s.status == STOPPED then
      var enqueued := StartPosition(s.enqueued, lsn, lastAcknowledged, first);
      var ack := StartPosition(s.ack, lsn, lastAcknowledged, first);
      Writing(Reset(s, ACTIVE).(enqueued := enqueued, ack := ack), StartResp)
    else Writing(s, ErrorResp)
  }

  function Stopping(s: Client): Outcome {
    if s.status == ACTIVE then Writing(s.(status := STOPPED), StopResp) else Writing(s, ErrorResp)
  }

  function Connecting(s: Client): Outcome {
    if s.socket then Outcome(false, s) else Outcome(true, s.(socket := true, written := s.written + [Connected]))
  }

  datatype Action =
    | DoConnect
    | SocketError
    | Close
    | Enqueue(t: Transaction)
    | Push
    | StartReq(lsn: seq<Byte>, lastAcknowledged: bool, first: bool)
    | StopReq
    | ResetLogPositions(sent: seq<Byte>, ack: seq<Byte>)

  predicate Proper(a: Action) {
    a.Enqueue? ==> 0 <= a.t.commitTimestamp
  }

  function Step(codec: Codec, s: Client, a: Action): Client
    requires Valid(s)
  {
    match a
    case DoConnect => Connecting(s).client
    case SocketError => s.(socket := false)
    case Close => Reset(s, STOPPED).(socket := false)
    case Enqueue(t) => Enqueueing(s, t).client
    case Push => Pushing(codec, s).client
    case StartReq(lsn, lastAcknowledged, first) => Starting(s, lsn, lastAcknowledged, first).client
    case StopReq => Stopping(s).client
    case ResetLogPositions(sent, ack) => Reset(s, STOPPED).(enqueued := sent, ack := ack)
  }

  /** Positions that were never set read as the default. */
  const START := Client(STOPPED, map[], [], DEFAULT_LOG_POS, DEFAULT_LOG_POS, false, [], [])

  // ---- The object ----

  class OutboundReplication {
    var isReplicating: ReplicationStatus
    var relations: RelationMap
    var transactions: seq<Transaction>
    var enqueuedLsn: seq<Byte>
    var ackLsn: seq<Byte>
    var socket: bool
    var written: seq<Written>
    var sent: seq<Transaction>

    constructor ()
      ensures Now() == START
    {
      isReplicating, relations, transactions := STOPPED, map[], [];
      enqueuedLsn, ackLsn := DEFAULT_LOG_POS, DEFAULT_LOG_POS;
      socket, written, sent := false, [], [];
    }

    function Now(): Client
      reads this
    {
      Client(isReplicating, relations, transactions, enqueuedLsn, ackLsn, socket, written, sent)
    }

    method SendMessage(m: Written) returns (ok: bool)
      modifies `written
      ensures Outcome(ok, Now()) == Writing(old(Now()), m)
    {
      if socket {
        written := written + [m];
      }
      ok := socket;
    }

    method ResetReplication(status: ReplicationStatus)
      modifies this
      ensures Now() == Reset(old(Now()), status)
    {
      isReplicating, relations, transactions := status, map[], [];
    }

    method SendMissingRelations(changes: seq<Change>) returns (ok: bool)
      modifies `relations, `written
      ensures Outcome(ok, Now()) == Announcing(old(Now()), changes)
    {
      ghost var was := Now();
      for i := 0 to |changes|
        invariant Announcing(was, changes[..i]) == Outcome(true, Now())
      {
        var relation := changes[i].relation;
        assert changes[..i + 1][..i] == changes[..i];
        if relation.id !in relations {
          relations := relations[relation.id := relation];
          ok := SendMessage(RelationMessage(Announcement(relation)));
          if !ok {
            FailureStays(was, changes, i + 1);
            return;
          }
        }
      }
      assert changes[..|changes|] == changes;
      ok := true;
    }

    method EnqueueTransaction(t: Transaction) returns (ok: bool)
      modifies `transactions, `enqueuedLsn
      ensures Outcome(ok, Now()) == Enqueueing(old(Now()), t)
    {
      if isReplicating != ACTIVE {
        return false;
      }
      transactions, enqueuedLsn := transactions + [t], t.lsn;
      ok := true;
    }

    method PushTransactions(codec: Codec) returns (ok: bool)
      requires Valid(Now())
      modifies this
      ensures Outcome(ok, Now()) == Pushing(codec, old(Now()))
    {
      if isReplicating != ACTIVE {
        return false;
      }
      ghost var was := Now();
      while |transactions| > 0
        invariant Now() == was || (transactions == [] && Outcome(true, Now()) == Pushing(codec, was))
        decreases |transactions|
      {
        var next := transactions[0];
        transactions := [];
        TimelyHead(was.queue);
        AnnouncingKeeps(Now(), next.changes);
        ok := SendMissingRelations(next.changes);
        if !ok {
          return;
        }
        AnnouncedIsSendable(was.(queue := []), next);
        var log := TransactionToSatOpLog(codec, next, relations);
        ok := SendMessage(OpLogMessage(log));
        if !ok {
          return;
        }
        sent := sent + [next];
      }
      ok := true;
    }

    method HandleStartReq(lsn: seq<Byte>, lastAcknowledged: bool, first: bool) returns (ok: bool)
      modifies this
      ensures Outcome(ok, Now()) == Starting(old(Now()), lsn, lastAcknowledged, first)
    {
      if isReplicating == STOPPED {
        if !lastAcknowledged {
          ackLsn, enqueuedLsn := lsn, lsn;
        }
        if !first {
          ackLsn, enqueuedLsn := DEFAULT_LOG_POS, DEFAULT_LOG_POS;
        }
        ResetReplication(ACTIVE);
        ok := SendMessage(StartResp);
      } else {
        ok := SendMessage(ErrorResp);
      }
    }

    method HandleStopReq() returns (ok: bool)
      modifies this
      ensures Outcome(ok, Now()) == Stopping(old(Now()))
    {
      if isReplicating == ACTIVE {
        isReplicating := STOPPED;
        ok := SendMessage(StopResp);
      } else {
        ok := SendMessage(ErrorResp);
      }
    }

    method Connect() returns (ok: bool)
      modifies this
      ensures Outcome(ok, Now()) == Connecting(old(Now()))
    {
      if socket {
        return false;
      }
      socket := true;
      written := written + [Connected];
      ok := true;
    }

    method Close()
      modifies this
      ensures Now() == Reset(old(Now()), STOPPED).(socket := false)
    {
      ResetReplication(STOPPED);
      socket := false;
    }

    method ResetOutboundLogPositions(position: seq<Byte>, ack: seq<Byte>)
      modifies this
      ensures Now() == Reset(old(Now()), STOPPED).(enqueued := position, ack := ack)
    {
      ResetReplication(STOPPED);
      enqueuedLsn, ackLsn := position, ack;
    }
  }

  lemma {:induction false} FailureStays(s: Client, changes: seq<Change>, n: nat)
    requires n <= |changes| && !Announcing(s, changes[..n]).ok
    ensures Announcing(s, changes) == Announcing(s, changes[..n])
  {
    if n == |changes| {
      assert changes[..n] == changes;
    } else {
      assert changes[..|changes| - 1][..n] == changes[..n];
      FailureStays(s, changes[..|changes| - 1], n);
    }
  }
}
