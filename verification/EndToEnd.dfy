/** From oplog entries to bytes and back: what a receiver decodes, reassembles and reads as entries. */
module EndToEnd {
  import opened Types
  import opened RowCodec
  import opened Protobuf
  import opened ProtobufRoundTrip
  import opened Messages
  import opened Stream
  import Transactions
  import WireConvergence

  /** The bytes of one transaction. */
  function SentBytes(codec: Codec, t: Transaction, sender: RelationMap): seq<Byte>
    requires Sendable(t, sender)
  {
    EncodeOpLog(codec, SatOpLog(TransactionOps(codec, t, sender)))
  }

  function Receive(codec: Codec, s: Inbound, bytes: seq<Byte>): Option<Inbound> {
    var log := DecodeOpLog(codec, bytes);
    if log.None? then None else FeedAll(codec, s, log.value.ops)
  }

  function ReceiveAll(codec: Codec, s: Inbound, packets: seq<seq<Byte>>): Option<Inbound> {
    if packets == [] then Some(s)
    else
      var before := ReceiveAll(codec, s, packets[..|packets| - 1]);
      if before.None? then None else Receive(codec, before.value, packets[|packets| - 1])
  }

  /** The commit time is a 64-bit number, relation numbers are 32-bit ones, and the bytes fewer than 2^32. */
  predicate Encodable(codec: Codec, t: Transaction, sender: RelationMap)
    requires Sendable(t, sender)
  {
    t.commitTimestamp < TWO_64 &&
    (forall i :: 0 <= i < |t.changes| ==> t.changes[i].relation.id < TWO_32) &&
    |SentBytes(codec, t, sender)| < TWO_32
  }

  predicate StreamEncodable(codec: Codec, txns: seq<Transaction>, sender: RelationMap, receiver: RelationMap)
    requires StreamReceivable(txns, sender, receiver)
  {
    txns == [] ||
    (StreamEncodable(codec, txns[..|txns| - 1], sender, receiver) && Encodable(codec, txns[|txns| - 1], sender))
  }

  function SentPackets(codec: Codec, txns: seq<Transaction>, sender: RelationMap, receiver: RelationMap): seq<seq<Byte>>
    requires StreamReceivable(txns, sender, receiver)
  {
    if txns == [] then []
    else SentPackets(codec, txns[..|txns| - 1], sender, receiver) + [SentBytes(codec, txns[|txns| - 1], sender)]
  }

  lemma OpsFit(codec: Codec, t: Transaction, sender: RelationMap)
    requires Sendable(t, sender) && Encodable(codec, t, sender)
    ensures LogFits(SatOpLog(TransactionOps(codec, t, sender)))
  {
    var ops := TransactionOps(codec, t, sender);
    forall i | 0 <= i < |ops| ensures OpFits(ops[i]) {
      if i == 0 {
        assert ops[0] == BeginOp(t);
      } else if i <= |t.changes| {
        assert ops[i] == ChangeToOp(codec, t.changes[i - 1], sender);
      } else {
        assert ops[i] == COMMIT_OP;
      }
    }
  }

  lemma PacketArrives(codec: Codec, s: Inbound, t: Transaction, sender: RelationMap)
    requires Invertible(codec) && s.open == [] && TransactionReceivable(t, sender, s.relations) &&
             Encodable(codec, t, sender)
    ensures Receive(codec, s, SentBytes(codec, t, sender)) ==
            Some(s.(emitted := s.emitted + [ArrivedTransaction(t, s.relations)]))
  {
    OpsFit(codec, t, sender);
    EncodedOpLogRoundTrip(codec, SatOpLog(TransactionOps(codec, t, sender)));
    TransactionArrives(codec, s, t, sender);
  }

  /** Bytes in, transactions out: a receiver that knows the relations emits exactly the transactions
      that were encoded, in order. */
  lemma {:induction false} PacketsArrive(codec: Codec, s: Inbound, txns: seq<Transaction>, sender: RelationMap)
    requires Invertible(codec) && s.open == [] && StreamReceivable(txns, sender, s.relations)
    requires StreamEncodable(codec, txns, sender, s.relations)
    ensures ReceiveAll(codec, s, SentPackets(codec, txns, sender, s.relations)) ==
            Some(s.(emitted := s.emitted + ArrivedStream(txns, sender, s.relations)))
  {
    if txns == [] {
      assert s.emitted + [] == s.emitted;
    } else {
      var front, t := txns[..|txns| - 1], txns[|txns| - 1];
      var before := ArrivedStream(front, sender, s.relations);
      PacketsArrive(codec, s, front, sender);
      OnePacketMore(codec, s, SentPackets(codec, front, sender, s.relations), before, t, sender);
    }
  }

  lemma OnePacketMore(codec: Codec, s: Inbound, packets: seq<seq<Byte>>, arrived: seq<Transaction>, t: Transaction,
        sender: RelationMap)
    requires Invertible(codec) && s.open == [] && TransactionReceivable(t, sender, s.relations) &&
             Encodable(codec, t, sender)
    requires ReceiveAll(codec, s, packets) == Some(s.(emitted := s.emitted + arrived))
    ensures ReceiveAll(codec, s, packets + [SentBytes(codec, t, sender)]) ==
            Some(s.(emitted := s.emitted + (arrived + [ArrivedTransaction(t, s.relations)])))
  {
    var all := packets + [SentBytes(codec, t, sender)];
    assert all[..|all| - 1] == packets;
    PacketArrives(codec, s.(emitted := s.emitted + arrived), t, sender);
    assert s.emitted + arrived + [ArrivedTransaction(t, s.relations)] ==
           s.emitted + (arrived + [ArrivedTransaction(t, s.relations)]);
  }

  // ---- What the receiver's oplog entries are ----

  predicate FullRecord(row: Row, columns: seq<Column>) {
    (forall i :: 0 <= i < |columns| ==> columns[i].name in row) &&
    forall name :: name in row ==> exists i :: 0 <= i < |columns| && columns[i].name == name
  }

  lemma FullIsNormal(row: Row, columns: seq<Column>)
    requires FullRecord(row, columns)
    ensures Normal(row, columns) == row
  {
    forall name
      ensures name in Normal(row, columns) <==> name in row
      ensures name in row ==> Normal(row, columns)[name] == row[name]
    {
      if name in Normal(row, columns) {
        NormalHoldsOnly(row, columns, name);
      }
      if name in row {
        var i :| 0 <= i < |columns| && columns[i].name == name;
        NormalHolds(row, columns, i);
      }
    }
  }

  /** An entry whose records hold all columns of its relation and the values of its key. */
  predicate WholeEntry(e: OplogEntry, relation: Relation) {
    relation.table == e.key.table && e.key.pk.Keys == Transactions.KeyColumns(relation) &&
    (if e.optype.DELETE? then e.newRow.None? && e.oldRow.Some? else e.newRow.Some?) &&
    var row := if e.newRow.Some? then e.newRow.value else RowOf(e.oldRow);
    FullRecord(row, relation.columns) && forall c :: c in e.key.pk ==> c in row && row[c] == e.key.pk[c]
  }

  /** An entry sent as a change, received and read as an entry again is the entry as the other replica
      folds it: an update has become an insert, and only its number is lost. */
  lemma EntryTravels(e: OplogEntry, relations: Transactions.Relations, receiver: RelationMap)
    requires e.key.table in relations && WholeEntry(e, relations[e.key.table])
    requires relations[e.key.table].id in receiver && receiver[relations[e.key.table].id].table == e.key.table
    requires SameColumns(relations[e.key.table].columns, receiver[relations[e.key.table].id].columns)
    ensures Transactions.ChangeToEntry(Arrived(Transactions.EntryToChange(e, relations), receiver), e.Millis(),
            relations) ==
            WireConvergence.Received(e).(rowid := -1, timestamp := Some(e.Millis()))
  {
    var relation := relations[e.key.table];
    var columns := receiver[relation.id].columns;
    var row := if e.newRow.Some? then e.newRow.value else RowOf(e.oldRow);
    NormalBySameColumns(row, columns, relation.columns);
    FullIsNormal(row, relation.columns);
    var got := Transactions.ChangeToEntry(Arrived(Transactions.EntryToChange(e, relations), receiver), e.Millis(),
      relations);
    assert got.key.pk == e.key.pk;
  }

  predicate Carried(e: OplogEntry, relations: Transactions.Relations, receiver: RelationMap) {
    e.key.table in relations && WholeEntry(e, relations[e.key.table]) &&
    relations[e.key.table].id in receiver && receiver[relations[e.key.table].id].table == e.key.table &&
    SameColumns(relations[e.key.table].columns, receiver[relations[e.key.table].id].columns)
  }

  /** A whole run of entries of one timestamp, sent as one transaction, is read as those entries again,
      each in its place. */
  lemma TransactionTravels(group: seq<OplogEntry>, relations: Transactions.Relations, receiver: RelationMap, i: nat)
    requires i < |group| && Transactions.Known(relations, group)
    requires forall e :: e in group ==> Carried(e, relations, receiver) && e.Millis() == group[0].Millis()
    ensures var t := Transactions.GroupToTransaction(group, relations);
      (forall k :: 0 <= k < |t.changes| ==> t.changes[k].relation.id in receiver) &&
      var arrived := ArrivedTransaction(t, receiver);
      |arrived.changes| == |group| &&
      (forall k :: 0 <= k < |arrived.changes| ==> arrived.changes[k].relation.table in relations) &&
      Transactions.FromTransaction(arrived, relations)[i] ==
      WireConvergence.Received(group[i]).(rowid := -1, timestamp := Some(group[i].Millis()))
  {
    forall k | 0 <= k < |group|
      ensures relations[group[k].key.table].id in receiver &&
              receiver[relations[group[k].key.table].id].table in relations
    {
      assert group[k] in group;
    }
    assert group[i] in group && group[|group| - 1] in group;
    EntryTravels(group[i], relations, receiver);
  }
}
