/** What a folded row says about the entries it was folded from. */
module OplogFold {
  import opened Types
  import opened Sets
  import opened Merge
  import opened Oplog

  type Log = seq<OplogEntry>

  function Last<T>(s: seq<T>): T
    requires s != []
  {
    s[|s| - 1]
  }

  function Front<T>(s: seq<T>): seq<T>
    requires s != []
  {
    s[..|s| - 1]
  }

  // ---- Folding is row by row ----

  /** The entries of row `k`, in order. */
  function RowLog(ops: Log, k: RowKey): Log {
    if ops == [] then []
    else
      var log := RowLog(Front(ops), k);
      if Last(ops).key == k then log + [Last(ops)] else log
  }

  function LocalRow(log: Log, origin: string): Option<LocalInfo> {
    if log == [] then None else Some(AddLocal(LocalRow(Front(log), origin), Last(log), origin))
  }

  function RemoteRow(log: Log): Option<ShadowChanges> {
    if log == [] then None else Some(AddRemote(RemoteRow(Front(log)), Last(log)))
  }

  lemma {:induction false} FoldIsRowByRow(ops: Log, origin: string, k: RowKey)
    ensures Get(FoldLocal(ops, origin), k) == LocalRow(RowLog(ops, k), origin)
    ensures Get(FoldRemote(ops), k) == RemoteRow(RowLog(ops, k))
  {
    if ops != [] {
      FoldIsRowByRow(Front(ops), origin, k);
      if Last(ops).key == k {
        assert Front(RowLog(ops, k)) == RowLog(Front(ops), k);
      }
    }
  }

  // ---- The closed form of a folded row ----

  /** Operation and tag of a folded row are those of its last entry. */
  lemma {:induction false} FoldReflectsLast(log: Log, origin: string)
    requires log != []
    ensures var row := LocalRow(log, origin).value.row;
      row.optype == RemoteRow(log).value.optype == KindOf(Last(log)) &&
      row.tag == TagOf(Last(log), origin) &&
      (row.tag.None? <==> Last(log).optype.DELETE?)
  {
  }

  /** Entry `i` is the last one that wrote column `c`. */
  predicate IsLastWrite(log: Log, i: nat, c: string)
    requires i < |log|
  {
    c in ChangedColumns(log[i]) && forall j :: i < j < |log| ==> c !in ChangedColumns(log[j])
  }

  function ColumnsOf(row: Option<ShadowChanges>): Changes {
    match row
    case None => map[]
    case Some(r) => r.changes
  }

  lemma {:induction false} FoldsAgreeOnColumns(log: Log, origin: string)
    requires log != []
    ensures LocalRow(log, origin).value.row.changes == ColumnsOf(RemoteRow(log))
  {
    if |log| > 1 {
      FoldsAgreeOnColumns(Front(log), origin);
    }
  }

  lemma LastWriteStep(log: Log, i: nat, c: string)
    requires log != [] && i < |log| - 1
    ensures IsLastWrite(log, i, c) <==> c !in ChangedColumns(Last(log)) && IsLastWrite(Front(log), i, c)
  {
    assert forall j :: i < j < |log| - 1 ==> Front(log)[j] == log[j];
  }

  /** The folded columns are the last write of every written column, and nothing else. */
  lemma {:induction false} FoldHoldsLastWrites(log: Log, c: string)
    ensures c in ColumnsOf(RemoteRow(log)) <==> exists i: nat :: i < |log| && IsLastWrite(log, i, c)
    ensures forall i: nat :: i < |log| && IsLastWrite(log, i, c) ==>
            ColumnsOf(RemoteRow(log))[c] == ChangedColumns(log[i])[c]
  {
    if log != [] {
      var n, front := |log| - 1, Front(log);
      FoldHoldsLastWrites(front, c);
      AddIsUpdate(RemoteRow(front), log[n]);
      if c in ChangedColumns(log[n]) {
        assert IsLastWrite(log, n, c);
      } else {
        forall i: nat | i < n
          ensures IsLastWrite(log, i, c) <==> IsLastWrite(front, i, c)
        {
          LastWriteStep(log, i, c);
        }
      }
    }
  }

  /** Entry `j` is the last one with the timestamp of the first entry. */
  predicate IsLastOfFirstStamp(log: Log, j: nat)
    requires j < |log|
  {
    log[j].timestamp == log[0].timestamp &&
    forall i :: j < i < |log| ==> log[i].timestamp != log[0].timestamp
  }

  predicate ClearedFrom(log: Log, j: nat, t: Tag) {
    exists i :: j <= i < |log| && t in log[i].clearTags
  }

  lemma AddClears(info: LocalInfo, e: OplogEntry, origin: string, t: Tag)
    ensures t in AddLocal(Some(info), e, origin).row.clearTags <==>
            t in e.clearTags || (info.first != e.timestamp && t in info.row.clearTags)
  {
  }

  /** The cleared tags are those of that entry and of all entries after it, and no others. */
  lemma {:induction false} FoldClearsTags(log: Log, origin: string, j: nat, t: Tag)
    requires j < |log| && IsLastOfFirstStamp(log, j)
    ensures t in LocalRow(log, origin).value.row.clearTags <==> ClearedFrom(log, j, t)
  {
    var n, front := |log| - 1, Front(log);
    if 0 < n {
      FirstStampIsKept(front, origin);
      AddClears(LocalRow(front, origin).value, log[n], origin, t);
      ClearedStep(log, j, t);
      if j < n {
        FoldClearsTags(front, origin, j, t);
      }
    }
  }

  lemma ClearedStep(log: Log, j: nat, t: Tag)
    requires j < |log|
    ensures ClearedFrom(log, j, t) <==> ClearedFrom(Front(log), j, t) || t in Last(log).clearTags
  {
    assert forall i :: 0 <= i < |log| - 1 ==> Front(log)[i] == log[i];
  }

  lemma {:induction false} FirstStampIsKept(log: Log, origin: string)
    requires log != []
    ensures LocalRow(log, origin).value.first == log[0].timestamp
    ensures RemoteRow(log).value.tags == log[0].clearTags
  {
    if |log| > 1 {
      FirstStampIsKept(Front(log), origin);
    }
  }

  predicate NondecreasingTime(log: Log) {
    forall i, j :: 0 <= i < j < |log| ==> log[i].Millis() <= log[j].Millis()
  }

  lemma {:induction false} FoldIsNotAhead(log: Log, t: int)
    requires forall i :: 0 <= i < |log| ==> log[i].Millis() <= t
    ensures forall c :: c in ColumnsOf(RemoteRow(log)) ==> ColumnsOf(RemoteRow(log))[c].timestamp <= t
  {
    if log != [] {
      assert forall i :: 0 <= i < |log| - 1 ==> Front(log)[i] == log[i];
      assert Last(log).Millis() <= t;
      FoldIsNotAhead(Front(log), t);
      AddIsUpdate(RemoteRow(Front(log)), Last(log));
      assert ColumnsOf(RemoteRow(log)) == ColumnsOf(RemoteRow(Front(log))) + ChangedColumns(Last(log));
    }
  }

  /** In time order a fold is last-write-wins: folding a log in two pieces and merging them under
      one origin gives the columns of the whole log. */
  lemma {:induction false} FoldIsHomomorphism(xs: Log, ys: Log, o: string)
    requires NondecreasingTime(xs + ys)
    ensures ColumnsOf(RemoteRow(xs + ys)) == LastWriteWins(o, ColumnsOf(RemoteRow(xs)), o, ColumnsOf(RemoteRow(ys)))
  {
    LessIsStrictOrder(o, o, o);
    if ys == [] {
      assert xs + ys == xs;
    } else {
      var e, zs := Last(ys), xs + ys;
      assert Front(zs) == xs + Front(ys) && Last(zs) == e;
      assert forall i :: 0 <= i < |zs| - 1 ==> Front(zs)[i] == zs[i];
      FoldIsHomomorphism(xs, Front(ys), o);
      assert forall i :: 0 <= i < |xs| ==> xs[i] == zs[i];
      FoldIsNotAhead(xs, e.Millis());
      LaterWritesWin(o, ColumnsOf(RemoteRow(xs)), ColumnsOf(RemoteRow(Front(ys))), ChangedColumns(e));
      AddIsUpdate(RemoteRow(Front(ys)), e);
      AddIsUpdate(RemoteRow(Front(zs)), e);
    }
  }

  lemma AddIsUpdate(row: Option<ShadowChanges>, e: OplogEntry)
    ensures AddRemote(row, e).changes == ColumnsOf(row) + ChangedColumns(e)
  {
  }

  lemma LaterWritesWin(o: string, a: Changes, b: Changes, d: Changes)
    requires !Less(o, o)
    requires forall c, e :: c in a && e in d ==> a[c].timestamp <= d[e].timestamp
    ensures LastWriteWins(o, a, o, b) + d == LastWriteWins(o, a, o, b + d)
  {
    var l, r := LastWriteWins(o, a, o, b) + d, LastWriteWins(o, a, o, b + d);
    assert l.Keys == r.Keys;
    assert forall c :: c in l ==> l[c] == r[c];
  }

  // ---- The fold of a log against its replay ----

  type Table = map<RowKey, Row>

  /** The table after one logged operation. */
  function Replay1(table: Table, e: OplogEntry): Table {
    if e.optype.DELETE? then table - {e.key} else table[e.key := RowOf(e.newRow)]
  }

  function Replay(table: Table, ops: Log): Table {
    if ops == [] then table else Replay1(Replay(table, Front(ops)), Last(ops))
  }

  function ReplayRow(row: Option<Row>, log: Log): Option<Row> {
    if log == [] then row else if Last(log).optype.DELETE? then None else Some(RowOf(Last(log).newRow))
  }

  /** The columns of every table. */
  type Schema = map<string, set<string>>

  /** A complete row of key `k`: all columns of its table, the key columns as in the key. */
  predicate FullRow(schema: Schema, k: RowKey, row: Row) {
    k.table in schema && row.Keys == schema[k.table] && k.pk.Keys <= row.Keys &&
    forall c :: c in k.pk ==> row[c] == k.pk[c]
  }

  /** What the triggers log: an insert of a full row where there was none, an update from the
      current row, a delete of a present row. */
  predicate Logged(schema: Schema, current: Option<Row>, e: OplogEntry) {
    match e.optype
    case INSERT => current.None? && e.oldRow.None? && e.newRow.Some? && FullRow(schema, e.key, e.newRow.value)
    case UPDATE => current.Some? && e.oldRow == current && e.newRow.Some? && FullRow(schema, e.key, e.newRow.value)
    case DELETE => current.Some? && e.oldRow == current && e.newRow.None?
  }

  predicate WellLogged(schema: Schema, table: Table, ops: Log) {
    ops == [] ||
    (WellLogged(schema, table, Front(ops)) && Logged(schema, Get(Replay(table, Front(ops)), Last(ops).key), Last(ops)))
  }

  predicate RowWellLogged(schema: Schema, row: Option<Row>, log: Log) {
    log == [] ||
    (RowWellLogged(schema, row, Front(log)) && Logged(schema, ReplayRow(row, Front(log)), Last(log)))
  }

  lemma {:induction false} ReplayIsRowByRow(schema: Schema, table: Table, ops: Log, k: RowKey)
    ensures Get(Replay(table, ops), k) == ReplayRow(Get(table, k), RowLog(ops, k))
    ensures WellLogged(schema, table, ops) ==> RowWellLogged(schema, Get(table, k), RowLog(ops, k))
    ensures forall i :: 0 <= i < |RowLog(ops, k)| ==> RowLog(ops, k)[i].key == k
  {
    if ops != [] {
      ReplayIsRowByRow(schema, table, Front(ops), k);
      if Last(ops).key == k {
        assert Front(RowLog(ops, k)) == RowLog(Front(ops), k);
      }
    }
  }

  function Values(changes: Changes): Row {
    map c | c in changes :: changes[c].value
  }

  /** The row that a folded change leaves on top of `row`: nothing, or the written columns over it. */
  function ApplyRow(row: Option<Row>, optype: ChangesOpType, changes: Changes): Option<Row> {
    match optype
    case REMOVE => None
    case UPSERT => Some(RowOf(row) + Values(changes))
  }

  /** Row-wise form of the refinement; the fold never leaves the columns of the table. */
  lemma {:induction false} RowFoldRefinesReplay(schema: Schema, k: RowKey, row: Option<Row>, log: Log)
    requires row.Some? ==> FullRow(schema, k, row.value)
    requires RowWellLogged(schema, row, log) && forall i :: 0 <= i < |log| ==> log[i].key == k
    ensures log == [] || ReplayRow(row, log) == ApplyRow(row, KindOf(Last(log)), ColumnsOf(RemoteRow(log)))
    ensures log == [] || (k.table in schema && ColumnsOf(RemoteRow(log)).Keys <= schema[k.table])
    ensures ReplayRow(row, log).Some? ==> FullRow(schema, k, ReplayRow(row, log).value)
  {
    if log != [] {
      var e, front := Last(log), Front(log);
      assert forall i :: 0 <= i < |front| ==> front[i] == log[i];
      RowFoldRefinesReplay(schema, k, row, front);
      AddIsUpdate(RemoteRow(front), e);
      if !e.optype.DELETE? {
        assert front == [] ==> ReplayRow(row, front) == row && RowOf(row) + Values(map[]) == RowOf(row);
        assert e.optype.UPDATE? && front != [] ==> KindOf(Last(front)) == UPSERT;
        RowStep(schema, row, ColumnsOf(RemoteRow(front)), ReplayRow(row, front), e);
      }
    }
  }

  /** Writing only the changed columns of an insert or update is as good as writing the whole row. */
  lemma RowStep(schema: Schema, row: Option<Row>, folded: Changes, current: Option<Row>, e: OplogEntry)
    requires Logged(schema, current, e) && !e.optype.DELETE?
    requires row.Some? ==> FullRow(schema, e.key, row.value)
    requires folded.Keys <= schema[e.key.table]
    requires current.Some? ==> current == Some(RowOf(row) + Values(folded))
    ensures RowOf(row) + Values(folded + ChangedColumns(e)) == e.newRow.value
  {
  }

  /** Applying the one folded change of each row to the table before the log gives the table that
      executing every operation one by one gives. */
  lemma FoldRefinesReplay(schema: Schema, table: Table, ops: Log, origin: string, k: RowKey)
    requires forall q :: q in table ==> FullRow(schema, q, table[q])
    requires WellLogged(schema, table, ops)
    ensures var after, fold := Get(Replay(table, ops), k), FoldLocal(ops, origin);
      if k in fold then after == ApplyRow(Get(table, k), fold[k].row.optype, fold[k].row.changes)
      else after == Get(table, k)
  {
    ReplayIsRowByRow(schema, table, ops, k);
    FoldIsRowByRow(ops, origin, k);
    var log := RowLog(ops, k);
    RowFoldRefinesReplay(schema, k, Get(table, k), log);
    if log != [] {
      FoldReflectsLast(log, origin);
      FoldsAgreeOnColumns(log, origin);
    }
  }
}
