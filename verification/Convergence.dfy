/** Replicas that start from the same table, write to it, and then store each other's entries.  An incoming
    entry carries the tags that its row has then (`clearTags` as clients/typescript/src/satellite/oplog.ts
    reads it for incoming entries), a replica's own entry the tags that the write cleared. */
module Convergence {
  import opened Types
  import opened Merge
  import opened Oplog
  import opened OplogFold
  import opened Transactions
  import opened Database
  import opened Snapshot
  import opened Apply
  import opened Process

  /** Column `c` of the winning cells is no earlier than any write of it in the log. */
  lemma {:induction false} FoldIsLatest(log: Log, i: nat, c: string)
    requires NondecreasingTime(log) && i < |log| && c in ChangedColumns(log[i])
    ensures c in ColumnsOf(RemoteRow(log)) && log[i].Millis() <= ColumnsOf(RemoteRow(log))[c].timestamp
  {
    AddIsUpdate(RemoteRow(Front(log)), Last(log));
    assert forall j :: 0 <= j < |log| - 1 ==> Front(log)[j] == log[j];
    if i < |log| - 1 {
      FoldIsLatest(Front(log), i, c);
    }
  }

  /** The columns one side merges: its own fold against the other side's. */
  function MergedColumns(mine: Log, my: string, theirs: Log, their: string): Changes {
    LastWriteWins(my, ColumnsOf(RemoteRow(mine)), their, ColumnsOf(RemoteRow(theirs)))
  }

  function MergedAt(mine: Log, my: string, theirs: Log, their: string): ShadowChanges
    requires theirs != []
  {
    MergedRow(LocalRow(mine, my), my, RemoteRow(theirs).value, their)
  }

  predicate Wrote(log: Log, c: string, cell: Cell) {
    exists i :: 0 <= i < |log| && c in ChangedColumns(log[i]) && ChangedColumns(log[i])[c] == cell
  }

  /** No write of column `c` by origin `o` is later than one at (`t`, `w`). */
  predicate NoneLater(log: Log, o: string, c: string, t: int, w: string) {
    forall i :: 0 <= i < |log| && c in ChangedColumns(log[i]) ==> !Later(log[i].Millis(), o, t, w)
  }

  lemma FoldCellIsLatest(log: Log, o: string, c: string)
    requires NondecreasingTime(log)
    ensures var p := ColumnsOf(RemoteRow(log));
      if c in p then Wrote(log, c, p[c]) && NoneLater(log, o, c, p[c].timestamp, o)
      else forall i :: 0 <= i < |log| ==> c !in ChangedColumns(log[i])
  {
    var p := ColumnsOf(RemoteRow(log));
    LessIsStrictOrder(o, o, o);
    FoldHoldsLastWrites(log, c);
    forall i | 0 <= i < |log| && c in ChangedColumns(log[i])
      ensures c in p && log[i].Millis() <= p[c].timestamp
    {
      FoldIsLatest(log, i, c);
    }
  }

  lemma NoneLaterStill(log: Log, o: string, c: string, t: int, w: string, t': int, w': string)
    requires NoneLater(log, o, c, t, w) && !Later(t, w, t', w')
    ensures NoneLater(log, o, c, t', w')
  {
    LessIsStrictOrder(o, w, w');
    LessIsStrictOrder(w', o, w);
    LessIsStrictOrder(w', w, o);
  }

  /** A merged column is the latest write of it on either side, by time and then by origin; it is
      merged only if some side wrote it. */
  lemma MergedColumnIsLatest(xs: Log, a: string, ys: Log, b: string, c: string)
    requires NondecreasingTime(xs) && NondecreasingTime(ys)
    ensures var merged := MergedColumns(xs, a, ys, b);
      if c in merged then
        var (cell, t) := (merged[c], merged[c].timestamp);
        (Wrote(xs, c, cell) && NoneLater(xs, a, c, t, a) && NoneLater(ys, b, c, t, a)) ||
        (Wrote(ys, c, cell) && NoneLater(xs, a, c, t, b) && NoneLater(ys, b, c, t, b))
      else
        (forall i :: 0 <= i < |xs| ==> c !in ChangedColumns(xs[i])) &&
        forall j :: 0 <= j < |ys| ==> c !in ChangedColumns(ys[j])
  {
    var p, q, merged := ColumnsOf(RemoteRow(xs)), ColumnsOf(RemoteRow(ys)), MergedColumns(xs, a, ys, b);
    FoldCellIsLatest(xs, a, c);
    FoldCellIsLatest(ys, b, c);
    if c in p && c in q {
      MergeIsMaximum(a, p, b, q, c);
      LessIsStrictOrder(a, b, a);
      if Later(p[c].timestamp, a, q[c].timestamp, b) {
        NoneLaterStill(ys, b, c, q[c].timestamp, b, p[c].timestamp, a);
      } else {
        NoneLaterStill(xs, a, c, p[c].timestamp, a, q[c].timestamp, b);
      }
    }
  }

  // ---- Which columns a log writes ----

  predicate HasInsert(log: Log) {
    log != [] && (Last(log).optype.INSERT? || HasInsert(Front(log)))
  }

  /** The row has all NOT NULL columns, and no null in them. */
  predicate Filled(required: Required, k: RowKey, row: Row) {
    forall c :: c in Needed(required, k) ==> c in row && row[c] != Null
  }

  predicate AllFilled(required: Required, k: RowKey, log: Log) {
    log == [] ||
    (AllFilled(required, k, Front(log)) && (Last(log).newRow.Some? ==> Filled(required, k, Last(log).newRow.value)))
  }

  /** With an insert the log writes all columns, without one no key column; what it writes to NOT NULL
      columns is not null. */
  predicate Covering(schema: Schema, required: Required, k: RowKey, log: Log) {
    var columns := ColumnsOf(RemoteRow(log));
    (log != [] ==> k.table in schema && Needed(required, k) <= schema[k.table] && columns.Keys <= schema[k.table]) &&
    (HasInsert(log) ==> columns.Keys == schema[k.table]) &&
    (!HasInsert(log) ==> forall c :: c in k.pk ==> c !in columns) &&
    forall c :: c in Needed(required, k) && c in columns ==> columns[c].value != Null
  }

  lemma EntryColumns(schema: Schema, required: Required, k: RowKey, current: Option<Row>, e: OplogEntry)
    requires Logged(schema, current, e) && e.key == k && (current.Some? ==> FullRow(schema, k, current.value))
    requires e.newRow.Some? ==> Filled(required, k, e.newRow.value)
    ensures k.table in schema && ChangedColumns(e).Keys <= schema[k.table]
    ensures if e.optype.INSERT? then ChangedColumns(e).Keys == schema[k.table]
            else forall c :: c in k.pk ==> c !in ChangedColumns(e)
    ensures forall c :: c in Needed(required, k) && c in ChangedColumns(e) ==> ChangedColumns(e)[c].value != Null
  {
  }

  /** What the triggers log covers. */
  lemma {:induction false} LoggedCovers(schema: Schema, required: Required, k: RowKey, row: Option<Row>, log: Log)
    requires row.Some? ==> FullRow(schema, k, row.value) && Filled(required, k, row.value)
    requires RowWellLogged(schema, row, log) && AllFilled(required, k, log)
    requires forall i :: 0 <= i < |log| ==> log[i].key == k
    ensures Covering(schema, required, k, log)
  {
    if log != [] {
      var front, e := Front(log), Last(log);
      assert forall i :: 0 <= i < |front| ==> front[i] == log[i];
      assert e.key == k;
      LoggedCovers(schema, required, k, row, front);
      RowFoldRefinesReplay(schema, k, row, front);
      EntryColumns(schema, required, k, ReplayRow(row, front), e);
      NeededAreColumns(schema, required, k, row, front, e);
      CoveringGrows(schema, required, k, log);
    }
  }

  lemma CoveringGrows(schema: Schema, required: Required, k: RowKey, log: Log)
    requires log != [] && Covering(schema, required, k, Front(log))
    requires k.table in schema && Needed(required, k) <= schema[k.table]
    requires ChangedColumns(Last(log)).Keys <= schema[k.table]
    requires if Last(log).optype.INSERT? then ChangedColumns(Last(log)).Keys == schema[k.table]
             else forall c :: c in k.pk ==> c !in ChangedColumns(Last(log))
    requires forall c :: c in Needed(required, k) && c in ChangedColumns(Last(log)) ==>
      ChangedColumns(Last(log))[c].value != Null
    ensures Covering(schema, required, k, log)
  {
    AddIsUpdate(RemoteRow(Front(log)), Last(log));
  }

  lemma NeededAreColumns(schema: Schema, required: Required, k: RowKey, row: Option<Row>, front: Log, e: OplogEntry)
    requires row.Some? ==> FullRow(schema, k, row.value) && Filled(required, k, row.value)
    requires Covering(schema, required, k, front) && e.key == k && Logged(schema, ReplayRow(row, front), e)
    requires e.newRow.Some? ==> Filled(required, k, e.newRow.value)
    ensures k.table in schema && Needed(required, k) <= schema[k.table]
  {
  }

  // ---- The verdict of a merge, in terms of the logs ----

  /** The last entry with the stamp of the first one. */
  function FirstStampEnd(log: Log): (j: nat)
    requires log != []
    ensures j < |log| && IsLastOfFirstStamp(log, j)
  {
    if |log| == 1 || Last(log).timestamp == log[0].timestamp then |log| - 1
    else
      var j := FirstStampEnd(Front(log));
      assert forall i :: 0 <= i < |log| - 1 ==> Front(log)[i] == log[i];
      j
  }

  /** The merge keeps the row: it was not deleted here last, or the first incoming entry came with a tag
      that nothing here cleared. */
  predicate Keeps(mine: Log, incoming: Log)
    requires incoming != []
  {
    if mine == [] then !Last(incoming).optype.DELETE?
    else
      !Last(mine).optype.DELETE? ||
      exists t :: t in incoming[0].clearTags && !ClearedFrom(mine, FirstStampEnd(mine), t)
  }

  /** A kept row can be stored when an insert is among its entries: only an insert brings the key columns. */
  predicate StorableRow(mine: Log, incoming: Log)
    requires incoming != []
  {
    Keeps(mine, incoming) ==> HasInsert(mine) || HasInsert(incoming)
  }

  lemma MergedAtIs(mine: Log, my: string, theirs: Log, their: string)
    requires theirs != []
    ensures MergedAt(mine, my, theirs, their).changes == MergedColumns(mine, my, theirs, their)
    ensures MergedAt(mine, my, theirs, their).optype.UPSERT? <==> Keeps(mine, theirs)
  {
    FirstStampIsKept(theirs, their);
    FoldReflectsLast(theirs, their);
    if mine != [] {
      FoldsAgreeOnColumns(mine, my);
      FoldReflectsLast(mine, my);
      TagsSurvive(LocalRow(mine, my).value.row, RemoteRow(theirs).value);
      forall t { FoldClearsTags(mine, my, FirstStampEnd(mine), t); }
    }
  }

  lemma MergedIsComplete(schema: Schema, required: Required, k: RowKey, mine: Log, my: string, theirs: Log,
        their: string)
    requires theirs != [] && k.pk != map[]
    requires Covering(schema, required, k, mine) && Covering(schema, required, k, theirs)
    ensures var merged := MergedColumns(mine, my, theirs, their);
      if HasInsert(mine) || HasInsert(theirs) then Complete(required, k, merged) && merged.Keys == schema[k.table]
      else forall c :: c in k.pk ==> c !in merged
  {
    var c :| c in k.pk;
    assert c in Needed(required, k);
  }

  /** A merged row can be stored exactly when the logs say so. */
  lemma StorableExactlyWhen(schema: Schema, required: Required, k: RowKey, mine: Log, my: string, theirs: Log,
        their: string)
    requires theirs != [] && k.pk != map[]
    requires Covering(schema, required, k, mine) && Covering(schema, required, k, theirs)
    ensures Storable(required, k, MergedAt(mine, my, theirs, their)) <==> StorableRow(mine, theirs)
    ensures Keeps(mine, theirs) && StorableRow(mine, theirs) ==>
      Complete(required, k, MergedColumns(mine, my, theirs, their)) &&
      MergedColumns(mine, my, theirs, their).Keys == schema[k.table]
  {
    MergedAtIs(mine, my, theirs, their);
    var merged := MergedColumns(mine, my, theirs, their);
    MergedIsComplete(schema, required, k, mine, my, theirs, their);
    var c :| c in k.pk;
    assert c in Needed(required, k);
    if merged != map[] && OnlyKey(k, merged) {
      var d :| d in merged;
      assert d in k.pk;
    }
  }

  // ---- Where a row ends ----

  /** A replica's own log of one row, from its base. */
  predicate OwnHistory(schema: Schema, required: Required, k: RowKey, base: Option<Row>, mine: Log) {
    (base.Some? ==> FullRow(schema, k, base.value) && Filled(required, k, base.value)) &&
    RowWellLogged(schema, base, mine) && (forall i :: 0 <= i < |mine| ==> mine[i].key == k) &&
    AllFilled(required, k, mine)
  }

  /** Incoming entries of a row that were stored, or none. */
  predicate Accepted(schema: Schema, required: Required, k: RowKey, mine: Log, incoming: Log) {
    incoming != [] ==> k.pk != map[] && Covering(schema, required, k, incoming) && StorableRow(mine, incoming)
  }

  /** Where a row ends: as the own log leaves it, or as merged with the incoming entries. */
  function RowEnd(base: Option<Row>, mine: Log, my: string, incoming: Log, their: string): Option<Row> {
    if incoming == [] then ReplayRow(base, mine)
    else if Keeps(mine, incoming) then Some(Values(MergedColumns(mine, my, incoming, their)))
    else None
  }

  predicate Stays(base: Option<Row>, mine: Log, incoming: Log) {
    if incoming != [] then Keeps(mine, incoming)
    else if mine != [] then !Last(mine).optype.DELETE?
    else base.Some?
  }

  /** The latest write of column `c` that the replica knows of, or its value from before. */
  function LastValue(base: Option<Row>, mine: Log, my: string, incoming: Log, their: string, c: string)
    : Option<SqlValue>
  {
    var cells := MergedColumns(mine, my, incoming, their);
    if c in cells then Some(cells[c].value) else Get(RowOf(base), c)
  }

  lemma WholeRowReplaces(row: Row, changes: Changes)
    requires row.Keys <= changes.Keys
    ensures row + Values(changes) == Values(changes)
  {
  }

  lemma NothingMerges(a: string, columns: Changes, b: string)
    ensures LastWriteWins(a, map[], b, columns) == columns && LastWriteWins(a, columns, b, map[]) == columns
  {
  }

  /** A row that ends at all has the columns of its table, each with the latest value. */
  lemma RowEndIs(schema: Schema, required: Required, k: RowKey, base: Option<Row>, mine: Log, my: string,
        incoming: Log, their: string)
    requires OwnHistory(schema, required, k, base, mine) && Accepted(schema, required, k, mine, incoming)
    ensures var end := RowEnd(base, mine, my, incoming, their);
      (end.Some? <==> Stays(base, mine, incoming)) &&
      (end.Some? ==>
         k.table in schema && end.value.Keys == schema[k.table] &&
         end.value == RowOf(base) + Values(MergedColumns(mine, my, incoming, their)))
  {
    RowFoldRefinesReplay(schema, k, base, mine);
    NothingMerges(my, ColumnsOf(RemoteRow(mine)), their);
    if incoming != [] && Keeps(mine, incoming) {
      LoggedCovers(schema, required, k, base, mine);
      StorableExactlyWhen(schema, required, k, mine, my, incoming, their);
      WholeRowReplaces(RowOf(base), MergedColumns(mine, my, incoming, their));
    }
  }

  lemma EndValue(schema: Schema, required: Required, k: RowKey, base: Option<Row>, mine: Log, my: string,
        incoming: Log, their: string, c: string)
    requires OwnHistory(schema, required, k, base, mine) && Accepted(schema, required, k, mine, incoming)
    requires Stays(base, mine, incoming)
    ensures RowEnd(base, mine, my, incoming, their).Some?
    ensures Get(RowEnd(base, mine, my, incoming, their).value, c) == LastValue(base, mine, my, incoming, their, c)
  {
    RowEndIs(schema, required, k, base, mine, my, incoming, their);
  }

  /** Storing incoming entries over any row of the table ends as declared. */
  lemma MergedRowEnds(schema: Schema, required: Required, k: RowKey, mine: Log, my: string, incoming: Log,
        their: string, base: Option<Row>, row: Option<Row>)
    requires OwnHistory(schema, required, k, base, mine) && Accepted(schema, required, k, mine, incoming)
    requires incoming != [] && (row.Some? ==> k.table in schema && row.value.Keys == schema[k.table])
    ensures RowUnder(required, k, row, MergedAt(mine, my, incoming, their)) ==
            RowEnd(base, mine, my, incoming, their)
  {
    MergedAtIs(mine, my, incoming, their);
    LoggedCovers(schema, required, k, base, mine);
    StorableExactlyWhen(schema, required, k, mine, my, incoming, their);
    if Keeps(mine, incoming) {
      WholeRowReplaces(RowOf(row), MergedColumns(mine, my, incoming, their));
    }
  }

  /** Two replicas meet on a row when it stays on both or on neither and, if it stays, the latest writes
      that they know of agree in every column. */
  ghost predicate Meets(base: Option<Row>, xs: Log, a: string, forA: Log, ys: Log, b: string, forB: Log) {
    (Stays(base, xs, forA) <==> Stays(base, ys, forB)) &&
    (Stays(base, xs, forA) ==>
       forall c :: LastValue(base, xs, a, forA, b, c) == LastValue(base, ys, b, forB, a, c))
  }

  lemma RowsMeet(schema: Schema, required: Required, k: RowKey, base: Option<Row>, xs: Log, a: string, forA: Log,
        ys: Log, b: string, forB: Log)
    requires OwnHistory(schema, required, k, base, xs) && Accepted(schema, required, k, xs, forA)
    requires OwnHistory(schema, required, k, base, ys) && Accepted(schema, required, k, ys, forB)
    ensures RowEnd(base, xs, a, forA, b) == RowEnd(base, ys, b, forB, a) <==> Meets(base, xs, a, forA, ys, b, forB)
  {
    RowEndIs(schema, required, k, base, xs, a, forA, b);
    RowEndIs(schema, required, k, base, ys, b, forB, a);
    if Stays(base, xs, forA) && Stays(base, ys, forB) {
      forall c
        ensures Get(RowEnd(base, xs, a, forA, b).value, c) == LastValue(base, xs, a, forA, b, c)
        ensures Get(RowEnd(base, ys, b, forB, a).value, c) == LastValue(base, ys, b, forB, a, c)
      {
        EndValue(schema, required, k, base, xs, a, forA, b, c);
        EndValue(schema, required, k, base, ys, b, forB, a, c);
      }
      SameRows(RowEnd(base, xs, a, forA, b).value, RowEnd(base, ys, b, forB, a).value);
    }
  }

  lemma SameRows(x: Row, y: Row)
    ensures x == y <==> forall c :: Get(x, c) == Get(y, c)
  {
    if forall c :: Get(x, c) == Get(y, c) { SameMap(x, y); }
  }

  // ---- Whole tables, and batch after batch ----

  predicate FullTable(schema: Schema, required: Required, table: Table) {
    forall k :: k in table ==> FullRow(schema, k, table[k]) && Filled(required, k, table[k])
  }

  /** A replica that logged what it did to a full table. */
  ghost predicate Replica(schema: Schema, required: Required, base: Table, mine: Log) {
    FullTable(schema, required, base) && WellLogged(schema, base, mine) &&
    forall k: RowKey :: AllFilled(required, k, RowLog(mine, k))
  }

  /** A batch that can be merged: its entries agree with their keys and cover their rows. */
  ghost predicate Mergeable(schema: Schema, required: Required, batch: Log) {
    (forall i :: 0 <= i < |batch| ==> KeyedEntry(batch[i])) &&
    forall k: RowKey :: RowLog(batch, k) != [] ==> k.pk != map[] && Covering(schema, required, k, RowLog(batch, k))
  }

  /** The batch goes through: every row that it would keep can be stored. */
  ghost predicate BatchStorable(mine: Log, batch: Log) {
    forall k: RowKey :: RowLog(batch, k) != [] ==> StorableRow(RowLog(mine, k), RowLog(batch, k))
  }

  /** One replica at the end: its own operations executed, then batch after batch merged in, without those
      that were not stored. */
  ghost function EndTable(required: Required, base: Table, mine: Log, my: string, batches: seq<Log>, their: string)
    : Table
  {
    if batches == [] then Replay(base, mine)
    else
      var table := EndTable(required, base, mine, my, Front(batches), their);
      if BatchStorable(mine, Last(batches))
      then AppliedRows(required, table, MergedEntries(my, mine, their, Last(batches)))
      else table
  }

  /** The entries of row `k` that were stored last. */
  ghost function LastStored(mine: Log, batches: seq<Log>, k: RowKey): Log {
    if batches == [] then []
    else if RowLog(Last(batches), k) != [] && BatchStorable(mine, Last(batches)) then RowLog(Last(batches), k)
    else LastStored(mine, Front(batches), k)
  }

  lemma MergedEntry(mine: Log, my: string, batch: Log, their: string, k: RowKey)
    ensures Get(MergedEntries(my, mine, their, batch), k) ==
            if RowLog(batch, k) == [] then None else Some(MergedAt(RowLog(mine, k), my, RowLog(batch, k), their))
  {
    FoldIsRowByRow(mine, my, k);
    FoldIsRowByRow(batch, my, k);
  }

  lemma OwnRow(schema: Schema, required: Required, base: Table, mine: Log, k: RowKey)
    requires Replica(schema, required, base, mine)
    ensures OwnHistory(schema, required, k, Get(base, k), RowLog(mine, k))
    ensures Get(Replay(base, mine), k) == ReplayRow(Get(base, k), RowLog(mine, k))
  {
    ReplayIsRowByRow(schema, base, mine, k);
  }

  /** A batch can be stored exactly when the logs say so of every row. */
  lemma BatchStorableExactlyWhen(schema: Schema, required: Required, base: Table, mine: Log, my: string,
        batch: Log, their: string)
    requires Replica(schema, required, base, mine) && Mergeable(schema, required, batch)
    ensures AllStorable(required, MergedEntries(my, mine, their, batch)) <==> BatchStorable(mine, batch)
  {
    var merged := MergedEntries(my, mine, their, batch);
    forall k: RowKey
      ensures k in merged <==> RowLog(batch, k) != []
      ensures k in merged ==> (Storable(required, k, merged[k]) <==> StorableRow(RowLog(mine, k), RowLog(batch, k)))
    {
      MergedEntry(mine, my, batch, their, k);
      if k in merged {
        OwnRow(schema, required, base, mine, k);
        LoggedCovers(schema, required, k, Get(base, k), RowLog(mine, k));
        StorableExactlyWhen(schema, required, k, RowLog(mine, k), my, RowLog(batch, k), their);
      }
    }
  }

  ghost predicate AllMergeable(schema: Schema, required: Required, batches: seq<Log>) {
    forall i :: 0 <= i < |batches| ==> Mergeable(schema, required, batches[i])
  }

  lemma FrontIsMergeable(schema: Schema, required: Required, batches: seq<Log>)
    requires AllMergeable(schema, required, batches) && batches != []
    ensures AllMergeable(schema, required, Front(batches)) && Mergeable(schema, required, Last(batches))
  {
    assert forall i :: 0 <= i < |Front(batches)| ==> Front(batches)[i] == batches[i];
  }

  lemma {:induction false} LastStoredIsAccepted(schema: Schema, required: Required, mine: Log, batches: seq<Log>,
        k: RowKey)
    requires AllMergeable(schema, required, batches)
    ensures Accepted(schema, required, k, RowLog(mine, k), LastStored(mine, batches, k))
  {
    if batches != [] {
      FrontIsMergeable(schema, required, batches);
      LastStoredIsAccepted(schema, required, mine, Front(batches), k);
    }
  }

  /** Of all batches only the one that was stored last decides on a row. */
  lemma {:induction false} EndRow(schema: Schema, required: Required, base: Table, mine: Log, my: string,
        batches: seq<Log>, their: string, k: RowKey)
    requires Replica(schema, required, base, mine) && AllMergeable(schema, required, batches)
    ensures Get(EndTable(required, base, mine, my, batches, their), k) ==
            RowEnd(Get(base, k), RowLog(mine, k), my, LastStored(mine, batches, k), their)
  {
    OwnRow(schema, required, base, mine, k);
    if batches != [] {
      FrontIsMergeable(schema, required, batches);
      EndRow(schema, required, base, mine, my, Front(batches), their, k);
      LastStoredIsAccepted(schema, required, mine, Front(batches), k);
      EndRowStep(schema, required, base, mine, my, Last(batches), their, k,
        EndTable(required, base, mine, my, Front(batches), their), LastStored(mine, Front(batches), k));
    }
  }

  lemma EndRowStep(schema: Schema, required: Required, base: Table, mine: Log, my: string, batch: Log,
        their: string, k: RowKey, table: Table, stored: Log)
    requires Replica(schema, required, base, mine) && Mergeable(schema, required, batch)
    requires OwnHistory(schema, required, k, Get(base, k), RowLog(mine, k))
    requires Accepted(schema, required, k, RowLog(mine, k), stored)
    requires Get(table, k) == RowEnd(Get(base, k), RowLog(mine, k), my, stored, their)
    ensures BatchStorable(mine, batch) ==>
      Get(AppliedRows(required, table, MergedEntries(my, mine, their, batch)), k) ==
      RowEnd(Get(base, k), RowLog(mine, k), my, if RowLog(batch, k) == [] then stored else RowLog(batch, k), their)
  {
    if BatchStorable(mine, batch) {
      MergedEntry(mine, my, batch, their, k);
      AppliedAt(required, table, map[], MergedEntries(my, mine, their, batch), k);
      if RowLog(batch, k) != [] {
        RowEndIs(schema, required, k, Get(base, k), RowLog(mine, k), my, stored, their);
        MergedRowEnds(schema, required, k, RowLog(mine, k), my, RowLog(batch, k), their, Get(base, k), Get(table, k));
      }
    }
  }

  ghost predicate AllMeet(base: Table, xs: Log, a: string, forA: seq<Log>, ys: Log, b: string, forB: seq<Log>) {
    forall k: RowKey ::
      Meets(Get(base, k), RowLog(xs, k), a, LastStored(xs, forA, k), RowLog(ys, k), b, LastStored(ys, forB, k))
  }

  lemma EndRowsMeet(schema: Schema, required: Required, base: Table, xs: Log, a: string, forA: seq<Log>,
        ys: Log, b: string, forB: seq<Log>, k: RowKey)
    requires Replica(schema, required, base, xs) && AllMergeable(schema, required, forA)
    requires Replica(schema, required, base, ys) && AllMergeable(schema, required, forB)
    ensures Get(EndTable(required, base, xs, a, forA, b), k) == Get(EndTable(required, base, ys, b, forB, a), k) <==>
            Meets(Get(base, k), RowLog(xs, k), a, LastStored(xs, forA, k), RowLog(ys, k), b, LastStored(ys, forB, k))
  {
    EndRow(schema, required, base, xs, a, forA, b, k);
    EndRow(schema, required, base, ys, b, forB, a, k);
    OwnRow(schema, required, base, xs, k);
    OwnRow(schema, required, base, ys, k);
    LastStoredIsAccepted(schema, required, xs, forA, k);
    LastStoredIsAccepted(schema, required, ys, forB, k);
    RowsMeet(schema, required, k, Get(base, k), RowLog(xs, k), a, LastStored(xs, forA, k),
             RowLog(ys, k), b, LastStored(ys, forB, k));
  }

  /** Whatever batches two replicas received, they hold the same table afterwards exactly when every row meets. */
  lemma TablesConverge(schema: Schema, required: Required, base: Table, xs: Log, a: string, forA: seq<Log>,
        ys: Log, b: string, forB: seq<Log>)
    requires Replica(schema, required, base, xs) && AllMergeable(schema, required, forA)
    requires Replica(schema, required, base, ys) && AllMergeable(schema, required, forB)
    ensures EndTable(required, base, xs, a, forA, b) == EndTable(required, base, ys, b, forB, a) <==>
            AllMeet(base, xs, a, forA, ys, b, forB)
  {
    var x, y := EndTable(required, base, xs, a, forA, b), EndTable(required, base, ys, b, forB, a);
    forall k: RowKey
      ensures Get(x, k) == Get(y, k) <==>
              Meets(Get(base, k), RowLog(xs, k), a, LastStored(xs, forA, k),
                    RowLog(ys, k), b, LastStored(ys, forB, k))
    {
      EndRowsMeet(schema, required, base, xs, a, forA, ys, b, forB, k);
    }
    if forall k :: Get(x, k) == Get(y, k) { SameMap(x, y); }
  }

  // ---- Databases ----

  lemma {:induction false} LogIsKeyed(schema: Schema, base: Table, log: Log)
    requires (forall k :: k in base ==> FullRow(schema, k, base[k])) && WellLogged(schema, base, log)
    ensures (forall i :: 0 <= i < |log| ==> KeyedEntry(log[i])) && KeyedTable(Replay(base, log))
  {
    if log != [] {
      assert forall i :: 0 <= i < |log| - 1 ==> Front(log)[i] == log[i];
      LogIsKeyed(schema, base, Front(log));
    }
  }

  /** A merged batch is stored in one database transaction, or not at all. */
  ghost predicate StoredBatch(before: Db, mine: Log, my: string, batch: Log, their: string, r: Outcome, after: Db) {
    exists lsn :: Stored(before, MergedEntries(my, mine, their, batch), lsn, r, after)
  }

  /** Batch after batch is stored. */
  ghost predicate Delivered(before: Db, mine: Log, my: string, batches: seq<Log>, their: string,
                            results: seq<Outcome>, after: Db) {
    if batches == [] then results == [] && after == before
    else
      results != [] &&
      exists mid ::
        Delivered(before, mine, my, Front(batches), their, Front(results), mid) &&
        StoredBatch(mid, mine, my, Last(batches), their, Last(results), after)
  }

  /** Done for exactly those batches of which the logs say that they can be stored. */
  ghost predicate Judged(mine: Log, batches: seq<Log>, results: seq<Outcome>) {
    |results| == |batches| &&
    forall i :: 0 <= i < |batches| ==> (results[i] == Done <==> BatchStorable(mine, batches[i]))
  }

  /** A replica that executed its own writes on the base table and then stored the batches it received. */
  ghost predicate StoredAll(schema: Schema, base: Table, mine: Log, my: string, batches: seq<Log>, their: string,
                            before: Db, results: seq<Outcome>, after: Db) {
    Replica(schema, before.required, base, mine) && AllMergeable(schema, before.required, batches) &&
    before.rows == Replay(base, mine) && Delivered(before, mine, my, batches, their, results, after)
  }

  lemma {:induction false} DeliveredRows(schema: Schema, base: Table, mine: Log, my: string, batches: seq<Log>,
        their: string, before: Db, results: seq<Outcome>, after: Db)
    requires StoredAll(schema, base, mine, my, batches, their, before, results, after)
    ensures Judged(mine, batches, results)
    ensures after.rows == EndTable(before.required, base, mine, my, batches, their)
    ensures after.required == before.required && KeyedTable(after.rows)
  {
    if batches == [] {
      LogIsKeyed(schema, base, mine);
    } else {
      var mid :|
        Delivered(before, mine, my, Front(batches), their, Front(results), mid) &&
        StoredBatch(mid, mine, my, Last(batches), their, Last(results), after);
      FrontIsMergeable(schema, before.required, batches);
      DeliveredRows(schema, base, mine, my, Front(batches), their, before, Front(results), mid);
      DeliveredStep(schema, base, mine, my, Last(batches), their, mid, Last(results), after);
      OneMoreJudged(mine, batches, results);
    }
  }

  lemma OneMoreJudged(mine: Log, batches: seq<Log>, results: seq<Outcome>)
    requires batches != [] && results != [] && Judged(mine, Front(batches), Front(results))
    requires Last(results) == Done <==> BatchStorable(mine, Last(batches))
    ensures Judged(mine, batches, results)
  {
    forall i | 0 <= i < |batches| ensures results[i] == Done <==> BatchStorable(mine, batches[i]) {
      if i < |batches| - 1 {
        assert Front(results)[i] == results[i] && Front(batches)[i] == batches[i];
      }
    }
  }

  lemma DeliveredStep(schema: Schema, base: Table, mine: Log, my: string, batch: Log, their: string,
        mid: Db, r: Outcome, after: Db)
    requires Replica(schema, mid.required, base, mine) && Mergeable(schema, mid.required, batch)
    requires KeyedTable(mid.rows) && StoredBatch(mid, mine, my, batch, their, r, after)
    ensures r == Done <==> BatchStorable(mine, batch)
    ensures after.rows ==
            if BatchStorable(mine, batch)
            then AppliedRows(mid.required, mid.rows, MergedEntries(my, mine, their, batch))
            else mid.rows
    ensures after.required == mid.required && KeyedTable(after.rows)
  {
    LogIsKeyed(schema, base, mine);
    MergedIsKeyed(my, mine, their, batch);
    BatchStorableExactlyWhen(schema, mid.required, base, mine, my, batch, their);
    AppliedRowsAreKeyed(mid.required, mid.rows, MergedEntries(my, mine, their, batch));
  }

  /** Convergence of the databases themselves.  Each replica executes its own writes and stores what it
      receives, batch after batch; a batch goes through exactly when the logs say so, and the tables are
      equal afterwards exactly when every row meets. */
  lemma ReplicasConverge(schema: Schema, base: Table, xs: Log, a: string, forA: seq<Log>, ys: Log, b: string,
        forB: seq<Log>, here: Db, rs: seq<Outcome>, after: Db, there: Db, rs': seq<Outcome>, after': Db)
    requires StoredAll(schema, base, xs, a, forA, b, here, rs, after)
    requires StoredAll(schema, base, ys, b, forB, a, there, rs', after')
    requires there.required == here.required
    ensures Judged(xs, forA, rs) && Judged(ys, forB, rs')
    ensures after.rows == after'.rows <==> AllMeet(base, xs, a, forA, ys, b, forB)
  {
    DeliveredRows(schema, base, xs, a, forA, b, here, rs, after);
    DeliveredRows(schema, base, ys, b, forB, a, there, rs', after');
    TablesConverge(schema, here.required, base, xs, a, forA, ys, b, forB);
  }

  // ---- Logs that are exchanged as they are ----

  /** The same entries with other tags. */
  predicate Retagged(log: Log, incoming: Log) {
    |incoming| == |log| &&
    forall i :: 0 <= i < |log| ==> incoming[i] == log[i].(clearTags := incoming[i].clearTags)
  }

  lemma FrontIsRetagged(log: Log, incoming: Log)
    requires Retagged(log, incoming) && log != []
    ensures Retagged(Front(log), Front(incoming))
    ensures Last(incoming) == Last(log).(clearTags := Last(incoming).clearTags)
  {
  }

  /** Tags make no difference to columns and kinds. */
  lemma {:induction false} RetaggedFold(log: Log, incoming: Log)
    requires Retagged(log, incoming)
    ensures ColumnsOf(RemoteRow(incoming)) == ColumnsOf(RemoteRow(log))
    ensures HasInsert(incoming) <==> HasInsert(log)
  {
    if log != [] {
      FrontIsRetagged(log, incoming);
      RetaggedFold(Front(log), Front(incoming));
      AddIsUpdate(RemoteRow(Front(log)), Last(log));
      AddIsUpdate(RemoteRow(Front(incoming)), Last(incoming));
    }
  }

  lemma {:induction false} RetaggedRow(log: Log, incoming: Log, k: RowKey)
    requires Retagged(log, incoming)
    ensures Retagged(RowLog(log, k), RowLog(incoming, k))
  {
    if log != [] {
      FrontIsRetagged(log, incoming);
      RetaggedRow(Front(log), Front(incoming), k);
    }
  }

  /** A whole log can be merged, whatever the tags it arrives with. */
  lemma LogIsMergeable(schema: Schema, required: Required, base: Table, log: Log, incoming: Log)
    requires Replica(schema, required, base, log) && Retagged(log, incoming)
    requires forall i :: 0 <= i < |log| ==> log[i].key.pk != map[]
    ensures Mergeable(schema, required, incoming)
  {
    LogIsKeyed(schema, base, log);
    forall k: RowKey | RowLog(incoming, k) != []
      ensures k.pk != map[] && Covering(schema, required, k, RowLog(incoming, k))
    {
      RetaggedRow(log, incoming, k);
      RetaggedFold(RowLog(log, k), RowLog(incoming, k));
      OwnRow(schema, required, base, log, k);
      LoggedCovers(schema, required, k, Get(base, k), RowLog(log, k));
      RowEntries(log, k, RowLog(log, k)[0]);
    }
  }

  lemma {:induction false} RowEntries(log: Log, k: RowKey, e: OplogEntry)
    ensures e in RowLog(log, k) <==> e in log && e.key == k
  {
    if log != [] {
      RowEntries(Front(log), k, e);
      assert log == Front(log) + [Last(log)];
    }
  }

  /** Convergence of a row that both wrote and both stored, as one batch each: both merges have the same
      columns, each over the base row, and the rows end equal exactly when both merges keep the row or
      neither does. */
  lemma RowConverges(schema: Schema, required: Required, k: RowKey, base: Option<Row>, xs: Log, a: string, forB: Log,
        ys: Log, b: string, forA: Log)
    requires OwnHistory(schema, required, k, base, xs) && Retagged(xs, forB) && xs != []
    requires OwnHistory(schema, required, k, base, ys) && Retagged(ys, forA) && ys != []
    requires k.pk != map[] && a != b && StorableRow(xs, forA) && StorableRow(ys, forB)
    ensures MergedAt(xs, a, forA, b).changes == MergedAt(ys, b, forB, a).changes == MergedColumns(xs, a, ys, b)
    ensures RowEnd(base, xs, a, forA, b) == RowEnd(base, ys, b, forB, a) <==> (Keeps(xs, forA) <==> Keeps(ys, forB))
    ensures Keeps(xs, forA) ==> RowEnd(base, xs, a, forA, b) == Some(RowOf(base) + Values(MergedColumns(xs, a, ys, b)))
  {
    MergedAtIs(xs, a, forA, b);
    MergedAtIs(ys, b, forB, a);
    RetaggedFold(xs, forB);
    RetaggedFold(ys, forA);
    MergeCommutes(a, ColumnsOf(RemoteRow(xs)), b, ColumnsOf(RemoteRow(ys)));
    LoggedCovers(schema, required, k, base, ys);
    RowEndIs(schema, required, k, base, xs, a, forA, b);
  }

  /** A row that only the other side wrote ends as it did there. */
  lemma OneSidedRow(schema: Schema, required: Required, k: RowKey, base: Option<Row>, log: Log, b: string,
        incoming: Log, a: string)
    requires OwnHistory(schema, required, k, base, log) && Retagged(log, incoming) && log != []
    requires k.pk != map[] && StorableRow([], incoming)
    ensures RowEnd(base, [], b, incoming, a) == ReplayRow(base, log)
  {
    RowFoldRefinesReplay(schema, k, base, log);
    RetaggedFold(log, incoming);
    LoggedCovers(schema, required, k, base, log);
    NothingMerges(b, ColumnsOf(RemoteRow(log)), a);
    RowEndIs(schema, required, k, base, [], b, incoming, a);
  }

  // ---- The tags that travel ----

  /** The tags of a row after an entry, as snapshots leave them in the shadow table. */
  function RowTags(e: OplogEntry, origin: string): seq<Tag> {
    match TagOf(e, origin)
    case None => []
    case Some(t) => [t]
  }

  /** Entries as another replica receives them: with the tags that their row has then (the server replaces
      the tags that a change cleared by its own one, see
      components/electric/lib/electric/replication/changes.ex). */
  function AsSent(log: Log, origin: string): (r: Log)
    ensures Retagged(log, r)
    ensures forall i :: 0 <= i < |log| ==> r[i].clearTags == RowTags(log[i], origin)
  {
    seq(|log|, i requires 0 <= i < |log| => log[i].(clearTags := RowTags(log[i], origin)))
  }

  /** Add wins: a row written last on the one side, of which a tag arrives that the other side did not
      clear, is kept by both merges, each with the tag of that write. */
  lemma AddWinsOnBoth(xs: Log, a: string, forB: Log, ys: Log, b: string, forA: Log, t: Tag)
    requires xs != [] && forB != [] && ys != [] && forA != [] && !Last(ys).optype.DELETE?
    requires t in forA[0].clearTags && !ClearedFrom(xs, FirstStampEnd(xs), t)
    ensures Keeps(xs, forA) && MergedAt(xs, a, forA, b).optype.UPSERT? && t in MergedAt(xs, a, forA, b).tags
    ensures Keeps(ys, forB) && MergedAt(ys, b, forB, a).optype.UPSERT? &&
            Tag(b, Last(ys).Millis()) in MergedAt(ys, b, forB, a).tags
  {
    MergedAtIs(xs, a, forA, b);
    MergedAtIs(ys, b, forB, a);
    FirstStampIsKept(forA, b);
    FoldReflectsLast(ys, b);
    FoldClearsTags(xs, a, FirstStampEnd(xs), t);
    TagsSurvive(LocalRow(xs, a).value.row, RemoteRow(forA).value);
    TagsSurvive(LocalRow(ys, b).value.row, RemoteRow(forB).value);
  }

  /** A tag that the replica has not received: none of its writes cleared it. */
  predicate Unseen(mine: Log, t: Tag) {
    forall i :: 0 <= i < |mine| ==> t !in mine[i].clearTags
  }

  /** A snapshot clears and leaves no tag that the replica has not received, except its own new one. */
  lemma UnseenStaysUnseen(db: Db, lastAckd: int, clientId: string, ts: int, t: Tag)
    requires Ascending(db.oplog) && Unseen(db.oplog, t) && t != Tag(clientId, ts)
    requires forall k :: t !in TagsOf(db.shadow, k)
    ensures var after := TaggedDb(db, lastAckd, clientId, ts);
      Unseen(after.oplog, t) && forall k :: t !in TagsOf(after.shadow, k)
  {
    var after := TaggedDb(db, lastAckd, clientId, ts);
    forall i | 0 <= i < |after.oplog| ensures t !in after.oplog[i].clearTags {
      SnapshotTagsOplog(db, lastAckd, clientId, ts, i);
    }
    forall k ensures t !in TagsOf(after.shadow, k) {
      SnapshotTagsRows(db, lastAckd, clientId, ts, k);
      assert t !in TagsOf(db.shadow, k);
    }
  }

  /** A merge with new entries drops the row exactly when it was deleted here last and their first is a delete. */
  lemma KeepsExactlyWhen(mine: Log, theirs: Log, origin: string)
    requires mine != [] && theirs != [] && Unseen(mine, Tag(origin, theirs[0].Millis()))
    ensures !Keeps(mine, AsSent(theirs, origin)) <==> Last(mine).optype.DELETE? && theirs[0].optype.DELETE?
  {
    var incoming := AsSent(theirs, origin);
    if !theirs[0].optype.DELETE? {
      assert Tag(origin, theirs[0].Millis()) in incoming[0].clearTags;
    }
  }

  /** Two replicas that receive the ends of each other's logs agree on keeping the row exactly when both
      drop it or neither does; they do agree when what arrives is one entry, or begins as it ends. */
  lemma AgreeExactlyWhen(xs: Log, a: string, n: nat, ys: Log, b: string, m: nat)
    requires n < |xs| && m < |ys|
    requires Unseen(xs, Tag(b, ys[m].Millis())) && Unseen(ys, Tag(a, xs[n].Millis()))
    ensures (Keeps(xs, AsSent(ys[m..], b)) <==> Keeps(ys, AsSent(xs[n..], a))) <==>
            (Last(xs).optype.DELETE? && ys[m].optype.DELETE? <==> Last(ys).optype.DELETE? && xs[n].optype.DELETE?)
    ensures
      (xs[n].optype.DELETE? <==> Last(xs).optype.DELETE?) && (ys[m].optype.DELETE? <==> Last(ys).optype.DELETE?) ==>
      (Keeps(xs, AsSent(ys[m..], b)) <==> Keeps(ys, AsSent(xs[n..], a)))
  {
    KeepsExactlyWhen(xs, ys[m..], b);
    KeepsExactlyWhen(ys, xs[n..], a);
  }

  // ---- Where they do not meet ----

  /** The log of a snapshot over one pending delete: it clears the tags of the row. */
  lemma DeleteIsTagged(k: RowKey, row: Row, db: Db, clientId: string, ts: int)
    requires db.oplog == [OplogEntry(1, k, DELETE, None, None, Some(row), [])]
    ensures TaggedDb(db, 0, clientId, ts).oplog ==
            [OplogEntry(1, k, DELETE, Some(ts), None, Some(row), TagsOf(db.shadow, k))]
  {
    SnapshotTagsOplog(db, 0, clientId, ts, 0);
  }

  /** The log of a snapshot over a delete and an insert in one transaction: the insert clears nothing. */
  lemma ReplacementIsTagged(k: RowKey, row: Row, again: Row, db: Db, clientId: string, ts: int)
    requires db.oplog == [OplogEntry(1, k, DELETE, None, None, Some(row), []),
                          OplogEntry(2, k, INSERT, None, Some(again), None, [])]
    ensures TaggedDb(db, 0, clientId, ts).oplog ==
            [OplogEntry(1, k, DELETE, Some(ts), None, Some(row), TagsOf(db.shadow, k)),
             OplogEntry(2, k, INSERT, Some(ts), Some(again), None, [])]
  {
    SnapshotTagsOplog(db, 0, clientId, ts, 0);
    SnapshotTagsOplog(db, 0, clientId, ts, 1);
    var stamped := StampOplog(db.oplog, 0, ts);
    assert stamped[0].key == stamped[1].key && Selected(stamped[0], 0, Some(ts));
  }

  /** A row that both replicas delete, and that the one inserts again in the same transaction: of entries of
      a row that arrive together the tags of the first one count, which is a delete without tags.  So the
      one replica drops the row and the other keeps it, and both batches are stored.  The logs are those of
      snapshots. */
  lemma MergesMayDisagree(k: RowKey, row: Row, again: Row, here: Db, there: Db)
    requires k == RowKey("t", map["id" := Number(1)]) && row == map["id" := Number(1), "p" := Number(0)]
    requires again == row["p" := Number(5)] && here.shadow == there.shadow == map[k := [Tag("c", 0)]]
    requires here.oplog == [OplogEntry(1, k, DELETE, None, None, Some(row), [])]
    requires there.oplog == [OplogEntry(1, k, DELETE, None, None, Some(row), []),
                             OplogEntry(2, k, INSERT, None, Some(again), None, [])]
    ensures var xs, ys := TaggedDb(here, 0, "a", 1).oplog, TaggedDb(there, 0, "b", 2).oplog;
      OwnHistory(map["t" := {"id", "p"}], map[], k, Some(row), xs) && xs != [] &&
      OwnHistory(map["t" := {"id", "p"}], map[], k, Some(row), ys) && ys != [] &&
      var forA, forB := AsSent(ys, "b"), AsSent(xs, "a");
      StorableRow(xs, forA) && RowEnd(Some(row), xs, "a", forA, "b").None? &&
      StorableRow(ys, forB) && RowEnd(Some(row), ys, "b", forB, "a").Some?
  {
    DeleteIsTagged(k, row, here, "a", 1);
    ReplacementIsTagged(k, row, again, there, "b", 2);
    var xs, ys := TaggedDb(here, 0, "a", 1).oplog, TaggedDb(there, 0, "b", 2).oplog;
    DeletedHistory(k, row, xs);
    ReplacedHistory(k, row, again, ys);
    KeepsExactlyWhen(xs, ys, "b");
    KeepsExactlyWhen(ys, xs, "a");
    assert HasInsert(ys);
  }

  lemma DeletedHistory(k: RowKey, row: Row, log: Log)
    requires k == RowKey("t", map["id" := Number(1)]) && row == map["id" := Number(1), "p" := Number(0)]
    requires |log| == 1 && log[0].key == k && log[0].optype == DELETE && log[0].newRow == None
    requires log[0].oldRow == Some(row)
    ensures OwnHistory(map["t" := {"id", "p"}], map[], k, Some(row), log)
  {
    assert Front(log) == [];
  }

  lemma ReplacedHistory(k: RowKey, row: Row, again: Row, log: Log)
    requires k == RowKey("t", map["id" := Number(1)]) && row == map["id" := Number(1), "p" := Number(0)]
    requires again == row["p" := Number(5)] && |log| == 2 && log[0].key == log[1].key == k
    requires log[0].optype == DELETE && log[0].newRow == None && log[0].oldRow == Some(row)
    requires log[1].optype == INSERT && log[1].newRow == Some(again) && log[1].oldRow == None
    ensures OwnHistory(map["t" := {"id", "p"}], map[], k, Some(row), log)
  {
    assert Front(log) == [log[0]];
    DeletedHistory(k, row, [log[0]]);
    assert FullRow(map["t" := {"id", "p"}], k, again) && Filled(map[], k, again);
  }

  /** Updates of one row on both sides that travel as changed columns are stored on neither, whatever their
      tags, and each replica keeps its own row. */
  lemma UpdatesAloneDoNotMeet(k: RowKey, base: Row, xs: Log, forB: Log, ys: Log, forA: Log)
    requires k == RowKey("t", map["id" := Number(1)])
    requires base == map["id" := Number(1), "p" := Number(0), "q" := Number(0)]
    requires xs == [OplogEntry(1, k, UPDATE, Some(1), Some(base["p" := Number(7)]), Some(base), [Tag("c", 0)])]
    requires ys == [OplogEntry(1, k, UPDATE, Some(2), Some(base["q" := Number(8)]), Some(base), [Tag("c", 0)])]
    requires Retagged(xs, forB) && Retagged(ys, forA)
    ensures !StorableRow(xs, forA) && !StorableRow(ys, forB)
    ensures RowEnd(Some(base), xs, "a", [], "b") != RowEnd(Some(base), ys, "b", [], "a")
  {
    assert Front(xs) == [] && Front(ys) == [] && !HasInsert([]);
    RetaggedFold(xs, forB);
    RetaggedFold(ys, forA);
    assert base["p" := Number(7)]["p"] != base["q" := Number(8)]["p"];
  }
}
