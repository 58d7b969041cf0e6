/** Cutting stamped oplog entries into transactions, and reading transactions back as entries, as in
    clients/typescript/src/satellite/oplog.ts. */
module Transactions {
  import opened Types
  import opened Lsn
  import opened OplogFold

  type Relations = map<string, Relation>

  predicate Known(relations: Relations, entries: Log) {
    forall i :: 0 <= i < |entries| ==> entries[i].key.table in relations
  }

  /** An update is sent as an insert of its whole new row. */
  function EntryToChange(e: OplogEntry, relations: Relations): Change
    requires e.key.table in relations
  {
    Change(if e.optype.DELETE? then DELETE else INSERT, relations[e.key.table], e.newRow, e.oldRow, e.clearTags)
  }

  function EntriesToChanges(entries: Log, relations: Relations): (r: seq<Change>)
    requires Known(relations, entries)
  {
    seq(|entries|, i requires 0 <= i < |entries| => EntryToChange(entries[i], relations))
  }

  /** The transaction that a run of entries of one timestamp makes; its position is that of the
      last entry. */
  function GroupToTransaction(group: Log, relations: Relations): Transaction
    requires group != [] && Known(relations, group)
  {
    Transaction(group[0].Millis(), NumberToBytes(Last(group).rowid), EntriesToChanges(group, relations), None)
  }

  // ---- The declared grouping ----

  function Flatten<T>(groups: seq<seq<T>>): seq<T> {
    if groups == [] then [] else Flatten(Front(groups)) + Last(groups)
  }

  predicate OneStamp(group: Log) {
    group != [] && forall i :: 0 <= i < |group| ==> group[i].Millis() == group[0].Millis()
  }

  /** `groups` cuts `entries`, in order and without loss, exactly where the timestamp changes. */
  ghost predicate CutsAtStamps(entries: Log, groups: seq<Log>) {
    (forall i :: 0 <= i < |groups| ==> OneStamp(groups[i])) && Flatten(groups) == entries &&
    forall i, j :: 0 <= i < j < |groups| && j == i + 1 ==> groups[i][0].Millis() != groups[j][0].Millis()
  }

  function AddToGroups(groups: seq<Log>, e: OplogEntry): seq<Log> {
    if groups != [] && Last(groups) != [] && Last(groups)[0].Millis() == e.Millis()
    then Front(groups) + [Last(groups) + [e]]
    else groups + [[e]]
  }

  function Groups(entries: Log): seq<Log> {
    if entries == [] then [] else AddToGroups(Groups(Front(entries)), Last(entries))
  }

  lemma {:induction false} GroupsCutAtStamps(entries: Log)
    ensures CutsAtStamps(entries, Groups(entries))
  {
    if entries != [] {
      var front, e := Groups(Front(entries)), Last(entries);
      GroupsCutAtStamps(Front(entries));
      var groups := Groups(entries);
      if |groups| == |front| {
        var g := Last(front);
        assert Front(groups) == Front(front);
        assert Flatten(groups) == Flatten(Front(front)) + (g + [e]);
        assert Flatten(front) == Flatten(Front(front)) + g;
      } else {
        assert Front(groups) == front;
      }
      assert Flatten(groups) == Front(entries) + [e];
    }
  }

  /** `groups` without its last entry. */
  function Shorter(groups: seq<Log>): seq<Log>
    requires groups != [] && Last(groups) != []
  {
    if |Last(groups)| == 1 then Front(groups) else Front(groups) + [Front(Last(groups))]
  }

  lemma ShorterIsCut(entries: Log, groups: seq<Log>)
    requires entries != [] && CutsAtStamps(entries, groups)
    ensures groups != [] && CutsAtStamps(Front(entries), Shorter(groups))
    ensures groups == AddToGroups(Shorter(groups), Last(entries))
  {
    assert groups != [];
    var front, g := Front(groups), Last(groups);
    assert OneStamp(g);
    assert entries == Flatten(front) + g;
    assert Last(g) == Last(entries) && g == Front(g) + [Last(g)];
    if |g| == 1 {
      assert Flatten(front) == Front(entries);
    } else {
      assert Front(Shorter(groups)) == front && Last(Shorter(groups)) == Front(g);
      assert Flatten(front) + Front(g) == Front(entries);
    }
  }

  lemma NothingToCut(groups: seq<Log>)
    ensures CutsAtStamps([], groups) ==> groups == []
  {
    if groups != [] && groups[|groups| - 1] != [] {
      assert |Flatten(groups)| >= |Last(groups)|;
    }
  }

  /** There is only one such cut. */
  lemma {:induction false} CutIsUnique(entries: Log, groups: seq<Log>)
    requires CutsAtStamps(entries, groups)
    ensures groups == Groups(entries)
    decreases |entries|
  {
    if entries == [] {
      NothingToCut(groups);
    } else {
      ShorterIsCut(entries, groups);
      CutIsUnique(Front(entries), Shorter(groups));
    }
  }

  // ---- The code ----

  ghost predicate AreTransactionsOf(groups: seq<Log>, txns: seq<Transaction>, relations: Relations) {
    |txns| == |groups| &&
    forall i :: 0 <= i < |groups| ==>
      groups[i] != [] && Known(relations, groups[i]) && txns[i] == GroupToTransaction(groups[i], relations)
  }

  /** One transaction per run of equal timestamps, with the changes of the run in order. */
  method ToTransactions(entries: Log, relations: Relations) returns (acc: seq<Transaction>)
    requires Known(relations, entries)
    ensures AreTransactionsOf(Groups(entries), acc, relations)
  {
    if |entries| == 0 {
      return [];
    }
    acc := [Transaction(entries[0].Millis(), NumberToBytes(entries[0].rowid), [], None)];
    for i := 0 to |entries|
      invariant acc != []
      invariant i == 0 ==> acc == [Transaction(entries[0].Millis(), NumberToBytes(entries[0].rowid), [], None)]
      invariant i > 0 ==> AreTransactionsOf(Groups(entries[..i]), acc, relations)
    {
      var txn := entries[i];
      ghost var groups := Groups(entries[..i]);
      assert Front(entries[..i + 1]) == entries[..i];
      if txn.Millis() != acc[|acc| - 1].commitTimestamp {
        acc := acc + [Transaction(txn.Millis(), NumberToBytes(txn.rowid), [], None)];
      }
      var curr := acc[|acc| - 1];
      curr := curr.(changes := curr.changes + [EntryToChange(txn, relations)], lsn := NumberToBytes(txn.rowid));
      acc := acc[..|acc| - 1] + [curr];
      assert EntriesToChanges([txn], relations) == [EntryToChange(txn, relations)];
      if i > 0 {
        var g := Last(groups);
        assert Known(relations, g + [txn]);
        assert EntriesToChanges(g + [txn], relations) ==
               EntriesToChanges(g, relations) + [EntryToChange(txn, relations)];
      }
    }
    assert entries[..|entries|] == entries;
  }

  // ---- Conservation and positions ----

  function AllChanges(txns: seq<Transaction>): seq<Change> {
    if txns == [] then [] else AllChanges(Front(txns)) + Last(txns).changes
  }

  predicate Ascending(entries: Log) {
    forall i, j :: 0 <= i < j < |entries| ==> entries[i].rowid < entries[j].rowid
  }

  function Position(lsn: seq<Byte>): int {
    ToInt32(BigEndian(lsn))
  }

  lemma {:induction false} FlattenedChanges(groups: seq<Log>, txns: seq<Transaction>, relations: Relations)
    requires AreTransactionsOf(groups, txns, relations)
    ensures Known(relations, Flatten(groups)) && AllChanges(txns) == EntriesToChanges(Flatten(groups), relations)
  {
    if groups != [] {
      FlattenedChanges(Front(groups), Front(txns), relations);
      var front, last := Flatten(Front(groups)), Last(groups);
      assert Last(txns) == GroupToTransaction(last, relations);
      assert EntriesToChanges(front + last, relations) ==
             EntriesToChanges(front, relations) + EntriesToChanges(last, relations);
    }
  }

  /** No change is lost, added or reordered. */
  lemma TransactionsConserveChanges(entries: Log, txns: seq<Transaction>, relations: Relations)
    requires Known(relations, entries)
    requires AreTransactionsOf(Groups(entries), txns, relations)
    ensures AllChanges(txns) == EntriesToChanges(entries, relations)
  {
    GroupsCutAtStamps(entries);
    FlattenedChanges(Groups(entries), txns, relations);
  }

  lemma {:induction false} GroupsAreInside(groups: seq<Log>, i: nat, e: OplogEntry)
    requires i < |groups| && e in groups[i]
    ensures e in Flatten(groups)
  {
    if i < |groups| - 1 {
      GroupsAreInside(Front(groups), i, e);
    }
  }

  lemma {:induction false} GroupsAscend(groups: seq<Log>, i: nat, j: nat)
    requires Ascending(Flatten(groups)) && i < j < |groups| && groups[i] != [] && groups[j] != []
    ensures Last(groups[i]).rowid < groups[j][0].rowid <= Last(groups[j]).rowid
  {
    var front, last := Flatten(Front(groups)), Last(groups);
    var all := Flatten(groups);
    assert all == front + last;
    if j < |groups| - 1 {
      assert Ascending(front) by { assert forall k :: 0 <= k < |front| ==> front[k] == all[k]; }
      GroupsAscend(Front(groups), i, j);
    } else {
      GroupsAreInside(Front(groups), i, Last(groups[i]));
      var k :| 0 <= k < |front| && front[k] == Last(groups[i]);
      assert all[k] == front[k] && all[|front|] == last[0] && all[|all| - 1] == Last(last);
    }
  }

  /** Positions strictly increase along the transactions as long as rowids stay below 2^31. */
  lemma PositionsIncrease(entries: Log, txns: seq<Transaction>, relations: Relations, i: nat, j: nat)
    requires Ascending(entries) && forall k :: 0 <= k < |entries| ==> 0 <= entries[k].rowid < TWO_31
    requires AreTransactionsOf(Groups(entries), txns, relations) && i < j < |txns|
    ensures Position(txns[i].lsn) < Position(txns[j].lsn)
  {
    var groups := Groups(entries);
    GroupsCutAtStamps(entries);
    GroupsAscend(groups, i, j);
    GroupsAreInside(groups, i, Last(groups[i]));
    GroupsAreInside(groups, j, Last(groups[j]));
    PositionRoundTrip(Last(groups[i]).rowid);
    PositionRoundTrip(Last(groups[j]).rowid);
  }

  // ---- Reading a transaction as incoming entries ----

  function KeyColumns(relation: Relation): set<string> {
    set c | c in relation.columns && c.primaryKey :: c.name
  }

  /** One entry per change; the key is read from the new record, or from the old one if there is none. */
  function ChangeToEntry(c: Change, commitTimestamp: int, relations: Relations): OplogEntry
    requires c.relation.table in relations
  {
    var record := if c.record.Some? then c.record.value else RowOf(c.oldRecord);
    OplogEntry(-1,
      RowKey(c.relation.table, map n | n in KeyColumns(relations[c.relation.table]) && n in record :: record[n]),
      c.optype, Some(commitTimestamp), c.record, c.oldRecord, c.tags)
  }

  /** The key of an incoming entry: the columns that its relation marks, with the values of the new row, or of
      the old row where there is no new one. */
  lemma EntryKeyIs(c: Change, commitTimestamp: int, relations: Relations, n: string)
    requires c.relation.table in relations
    ensures var key, row := ChangeToEntry(c, commitTimestamp, relations).key,
                            if c.record.None? then c.oldRecord else c.record;
      key.table == c.relation.table &&
      (n in key.pk <==>
       row.Some? && n in row.value &&
       exists i :: i in relations[c.relation.table].columns && i.primaryKey && i.name == n) &&
      (n in key.pk ==> key.pk[n] == row.value[n])
  {
  }

  function FromTransaction(t: Transaction, relations: Relations): Log
    requires forall i :: 0 <= i < |t.changes| ==> t.changes[i].relation.table in relations
  {
    seq(|t.changes|, i requires 0 <= i < |t.changes| => ChangeToEntry(t.changes[i], t.commitTimestamp, relations))
  }
}
