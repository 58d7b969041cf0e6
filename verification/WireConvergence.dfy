/** What becomes of convergence when updates travel as inserts of whole rows, as the code sends them
    (see the remark in clients/typescript/src/satellite/oplog.ts on losing update information), one
    transaction after another. */
module WireConvergence {
  import opened Types
  import opened Merge
  import opened Oplog
  import opened OplogFold
  import opened Transactions
  import opened Database
  import opened Apply
  import opened Process
  import opened Convergence

  /** An entry as the other replica receives it: an update has become an insert without old row. */
  function Received(e: OplogEntry): OplogEntry {
    if e.optype.DELETE? then e else e.(optype := INSERT, oldRow := None)
  }

  function AllReceived(log: Log): (r: Log)
    ensures |r| == |log| && forall i :: 0 <= i < |log| ==> r[i] == Received(log[i])
  {
    seq(|log|, i requires 0 <= i < |log| => Received(log[i]))
  }

  /** An entry of row `k` on the wire: a whole row, or a delete. */
  predicate WireEntry(schema: Schema, required: Required, k: RowKey, e: OplogEntry) {
    e.key == k && k.table in schema && Needed(required, k) <= schema[k.table] &&
    if e.optype.DELETE? then e.newRow.None?
    else
      e.optype.INSERT? && e.oldRow.None? && e.newRow.Some? && FullRow(schema, k, e.newRow.value) &&
      Filled(required, k, e.newRow.value)
  }

  predicate WireLog(schema: Schema, required: Required, k: RowKey, log: Log) {
    forall i :: 0 <= i < |log| ==> WireEntry(schema, required, k, log[i])
  }

  /** What a replica logged is on the wire when received, whatever the tags. */
  lemma {:induction false} LoggedIsWire(schema: Schema, required: Required, k: RowKey, base: Option<Row>, log: Log,
        incoming: Log)
    requires OwnHistory(schema, required, k, base, log) && Retagged(AllReceived(log), incoming)
    ensures WireLog(schema, required, k, incoming)
  {
    if log != [] {
      var front, e := Front(log), Last(log);
      assert forall i :: 0 <= i < |front| ==> front[i] == log[i];
      LoggedIsWire(schema, required, k, base, front, Front(incoming));
      RowFoldRefinesReplay(schema, k, base, front);
      LoggedCovers(schema, required, k, base, log);
      assert e.key == k && Last(incoming) == Received(e).(clearTags := Last(incoming).clearTags);
      forall i | 0 <= i < |incoming| ensures WireEntry(schema, required, k, incoming[i]) {
        if i < |front| { assert incoming[i] == Front(incoming)[i]; }
      }
    }
  }

  /** The last entry that left a row. */
  function LastWritten(log: Log): Option<OplogEntry> {
    if log == [] then None else if Last(log).optype.DELETE? then LastWritten(Front(log)) else Some(Last(log))
  }

  /** The row written last. */
  function LastRow(log: Log): Row {
    match LastWritten(log)
    case None => map[]
    case Some(e) => RowOf(e.newRow)
  }

  /** All columns of a row, written at one time. */
  function Whole(row: Row, t: int): Changes {
    map c | c in row :: Cell(row[c], t)
  }

  function WrittenWhole(log: Log): Changes {
    match LastWritten(log)
    case None => map[]
    case Some(e) => Whole(RowOf(e.newRow), e.Millis())
  }

  lemma Overwritten(folded: Changes, written: Changes)
    requires folded.Keys <= written.Keys
    ensures folded + written == written
  {
  }

  lemma WireStep(schema: Schema, required: Required, k: RowKey, folded: Changes, e: OplogEntry)
    requires WireEntry(schema, required, k, e) && folded.Keys <= schema[k.table]
    ensures folded + ChangedColumns(e) == if e.optype.DELETE? then folded else Whole(RowOf(e.newRow), e.Millis())
  {
    if e.optype.DELETE? {
      assert ChangedColumns(e) == map[];
    } else {
      assert ChangedColumns(e) == Whole(RowOf(e.newRow), e.Millis());
      Overwritten(folded, ChangedColumns(e));
    }
  }

  /** A received log folds to the whole row written last, at the time of that write. */
  lemma {:induction false} ReceivedFold(schema: Schema, required: Required, k: RowKey, log: Log)
    requires WireLog(schema, required, k, log)
    ensures ColumnsOf(RemoteRow(log)) == WrittenWhole(log)
    ensures HasInsert(log) <==> LastWritten(log).Some?
    ensures LastWritten(log).Some? ==>
      k.table in schema && LastRow(log).Keys == schema[k.table] && Filled(required, k, LastRow(log))
  {
    if log != [] {
      assert forall i :: 0 <= i < |log| - 1 ==> Front(log)[i] == log[i];
      ReceivedFold(schema, required, k, Front(log));
      assert WireEntry(schema, required, k, log[|log| - 1]);
      AddIsUpdate(RemoteRow(Front(log)), Last(log));
      WireStep(schema, required, k, ColumnsOf(RemoteRow(Front(log))), Last(log));
    }
  }

  /** What is received covers its row. */
  lemma WireCovers(schema: Schema, required: Required, k: RowKey, log: Log)
    requires WireLog(schema, required, k, log)
    ensures Covering(schema, required, k, log)
  {
    ReceivedFold(schema, required, k, log);
    if log != [] {
      assert WireEntry(schema, required, k, log[0]);
    }
  }

  /** Whether a row is kept does not depend on the form in which it travelled. */
  lemma KeepsReceived(mine: Log, theirs: Log)
    requires theirs != []
    ensures Keeps(mine, AllReceived(theirs)) <==> Keeps(mine, theirs)
  {
  }

  // ---- Rows ----

  /** A kept row can be stored when it was inserted here or arrives with any write. */
  predicate WireStorableRow(mine: Log, incoming: Log)
    requires incoming != []
  {
    Keeps(mine, incoming) ==> HasInsert(mine) || LastWritten(incoming).Some?
  }

  /** Column `c` of replica `my` is held by its own write: no row came with the incoming entries, or the
      write is later than the last one of them. */
  predicate Holds(mine: Log, my: string, incoming: Log, their: string, c: string) {
    match LastWritten(incoming)
    case None => true
    case Some(e) =>
      var own := ColumnsOf(RemoteRow(mine));
      c in own && Later(own[c].timestamp, my, e.Millis(), their)
  }

  /** The values written to the columns of a log are those of its row written last. */
  lemma {:induction false} OwnColumns(schema: Schema, required: Required, k: RowKey, base: Option<Row>, log: Log)
    requires OwnHistory(schema, required, k, base, log)
    ensures var own := ColumnsOf(RemoteRow(log));
      forall c :: c in own ==> LastWritten(log).Some? && c in LastRow(log) && own[c].value == LastRow(log)[c]
  {
    if log != [] {
      var front, e := Front(log), Last(log);
      assert forall i :: 0 <= i < |front| ==> front[i] == log[i];
      assert e.key == k;
      OwnColumns(schema, required, k, base, front);
      RowFoldRefinesReplay(schema, k, base, front);
      AddIsUpdate(RemoteRow(front), e);
      OwnStep(schema, base, front, e);
    }
  }

  lemma OwnStep(schema: Schema, row: Option<Row>, front: Log, e: OplogEntry)
    requires Logged(schema, ReplayRow(row, front), e)
    requires !e.optype.DELETE? ==> ColumnsOf(RemoteRow(front)).Keys <= RowOf(e.newRow).Keys
    requires var own := ColumnsOf(RemoteRow(front));
      forall c :: c in own ==> LastWritten(front).Some? && c in LastRow(front) && own[c].value == LastRow(front)[c]
    ensures var own := ColumnsOf(RemoteRow(front)) + ChangedColumns(e); !e.optype.DELETE? ==>
      forall c :: c in own ==> c in RowOf(e.newRow) && own[c].value == RowOf(e.newRow)[c]
    ensures e.optype.DELETE? ==> ChangedColumns(e) == map[]
  {
    if e.optype.UPDATE? && front != [] {
      assert ReplayRow(row, front) == Some(RowOf(Last(front).newRow));
    }
  }

  lemma {:induction false} InsertIsWrite(log: Log)
    ensures HasInsert(log) ==> LastWritten(log).Some?
  {
    if log != [] { InsertIsWrite(Front(log)); }
  }

  /** Where a row ends that is kept: in a column held here the own value, in any other one the other's. */
  lemma ColumnEndsWith(schema: Schema, required: Required, k: RowKey, base: Option<Row>, mine: Log, my: string,
        incoming: Log, their: string, c: string)
    requires OwnHistory(schema, required, k, base, mine) && WireLog(schema, required, k, incoming)
    requires k.pk != map[] && incoming != [] && WireStorableRow(mine, incoming) && Keeps(mine, incoming)
    ensures var end := RowEnd(base, mine, my, incoming, their);
      end.Some? && k.table in schema && end.value.Keys == schema[k.table] &&
      (c in schema[k.table] ==>
         if Holds(mine, my, incoming, their, c)
         then LastWritten(mine).Some? && c in LastRow(mine) && end.value[c] == LastRow(mine)[c]
         else LastWritten(incoming).Some? && c in LastRow(incoming) && end.value[c] == LastRow(incoming)[c])
  {
    ReceivedFold(schema, required, k, incoming);
    WireCovers(schema, required, k, incoming);
    LoggedCovers(schema, required, k, base, mine);
    OwnColumns(schema, required, k, base, mine);
    RowEndIs(schema, required, k, base, mine, my, incoming, their);
    NothingMerges(my, ColumnsOf(RemoteRow(mine)), their);
  }

  /** The end of a log arrives: its entries from the `n`-th on, as received and with any tags. */
  predicate Arrives(log: Log, n: nat, incoming: Log) {
    n < |log| && Retagged(AllReceived(log[n..]), incoming)
  }

  lemma {:induction false} LastRowArrives(log: Log, incoming: Log)
    requires Retagged(AllReceived(log), incoming)
    ensures LastWritten(incoming).Some? <==> LastWritten(log).Some?
    ensures LastRow(incoming) == LastRow(log)
  {
    if log != [] {
      assert Last(incoming) == Received(Last(log)).(clearTags := Last(incoming).clearTags);
      LastRowArrives(Front(log), Front(incoming));
    }
  }

  lemma {:induction false} LastRowOfEnd(log: Log, n: nat)
    requires n <= |log| && LastWritten(log[n..]).Some?
    ensures LastWritten(log) == LastWritten(log[n..])
  {
    if Last(log).optype.DELETE? {
      assert Front(log[n..]) == Front(log)[n..];
      LastRowOfEnd(Front(log), n);
    }
  }

  lemma EndIsWire(schema: Schema, required: Required, k: RowKey, log: Log, n: nat, incoming: Log)
    requires WireLog(schema, required, k, AllReceived(log)) && Arrives(log, n, incoming)
    ensures WireLog(schema, required, k, incoming)
  {
    forall i | 0 <= i < |incoming| ensures WireEntry(schema, required, k, incoming[i]) {
      assert incoming[i] == AllReceived(log)[n + i].(clearTags := incoming[i].clearTags);
      assert WireEntry(schema, required, k, AllReceived(log)[n + i]);
    }
  }

  lemma LastKindArrives(log: Log, n: nat, incoming: Log)
    requires Arrives(log, n, incoming)
    ensures incoming != [] && (Last(incoming).optype.DELETE? <==> Last(log).optype.DELETE?)
    ensures LastWritten(incoming).Some? ==> LastWritten(log).Some? && LastRow(incoming) == LastRow(log)
  {
    assert Last(log[n..]) == Last(log);
    LastRowArrives(log[n..], incoming);
    if LastWritten(log[n..]).Some? { LastRowOfEnd(log, n); }
  }

  /** The end of a log is on the wire and has the row written last, if it has any. */
  lemma ArrivesOnWire(schema: Schema, required: Required, k: RowKey, base: Option<Row>, log: Log, n: nat, incoming: Log)
    requires OwnHistory(schema, required, k, base, log) && Arrives(log, n, incoming)
    ensures incoming != [] && WireLog(schema, required, k, incoming)
    ensures Last(incoming).optype.DELETE? <==> Last(log).optype.DELETE?
    ensures LastWritten(incoming).Some? ==> LastWritten(log).Some? && LastRow(incoming) == LastRow(log)
  {
    LoggedIsWire(schema, required, k, base, log, AllReceived(log));
    EndIsWire(schema, required, k, log, n, incoming);
    LastKindArrives(log, n, incoming);
  }

  /** When a row that both wrote ends equal: both keep it or neither does; and if both do and both left a row,
      then in every column their rows agree, or exactly one side holds the column. */
  predicate WireMeets(xs: Log, a: string, forA: Log, ys: Log, b: string, forB: Log)
    requires forA != [] && forB != []
  {
    (Keeps(xs, forA) <==> Keeps(ys, forB)) &&
    (Keeps(xs, forA) && LastWritten(xs).Some? && LastWritten(ys).Some? ==>
       forall c :: c in LastRow(xs) && c in LastRow(ys) ==>
         LastRow(xs)[c] == LastRow(ys)[c] || (Holds(xs, a, forA, b, c) <==> !Holds(ys, b, forB, a, c)))
  }

  /** One column of a row that both keep and both left. */
  lemma WrittenColumnsMeet(schema: Schema, required: Required, k: RowKey, base: Option<Row>, xs: Log, a: string,
        n: nat, forB: Log, ys: Log, b: string, m: nat, forA: Log, c: string)
    requires OwnHistory(schema, required, k, base, xs) && Arrives(xs, n, forB) && LastWritten(xs).Some?
    requires OwnHistory(schema, required, k, base, ys) && Arrives(ys, m, forA) && LastWritten(ys).Some?
    requires k.pk != map[] && WireStorableRow(xs, forA) && WireStorableRow(ys, forB)
    requires Keeps(xs, forA) && Keeps(ys, forB)
    ensures var v, w := RowEnd(base, xs, a, forA, b), RowEnd(base, ys, b, forB, a);
      v.Some? && w.Some? && v.value.Keys == w.value.Keys == LastRow(xs).Keys == LastRow(ys).Keys &&
      (c in v.value ==> (v.value[c] == w.value[c] <==>
         LastRow(xs)[c] == LastRow(ys)[c] || (Holds(xs, a, forA, b, c) <==> !Holds(ys, b, forB, a, c))))
  {
    ArrivesOnWire(schema, required, k, base, xs, n, forB);
    ArrivesOnWire(schema, required, k, base, ys, m, forA);
    ColumnEndsWith(schema, required, k, base, xs, a, forA, b, c);
    ColumnEndsWith(schema, required, k, base, ys, b, forB, a, c);
    LastRowIsFull(schema, required, k, base, xs);
    LastRowIsFull(schema, required, k, base, ys);
  }

  lemma LastRowIsFull(schema: Schema, required: Required, k: RowKey, base: Option<Row>, log: Log)
    requires OwnHistory(schema, required, k, base, log) && LastWritten(log).Some?
    ensures k.table in schema && LastRow(log).Keys == schema[k.table]
  {
    LoggedIsWire(schema, required, k, base, log, AllReceived(log));
    ReceivedFold(schema, required, k, AllReceived(log));
    LastRowArrives(log, AllReceived(log));
  }

  lemma SameColumns(x: Row, y: Row)
    requires x.Keys == y.Keys
    ensures x == y <==> forall c :: c in x ==> x[c] == y[c]
  {
  }

  lemma WrittenRowsMeet(schema: Schema, required: Required, k: RowKey, base: Option<Row>, xs: Log, a: string,
        n: nat, forB: Log, ys: Log, b: string, m: nat, forA: Log)
    requires OwnHistory(schema, required, k, base, xs) && Arrives(xs, n, forB) && LastWritten(xs).Some?
    requires OwnHistory(schema, required, k, base, ys) && Arrives(ys, m, forA) && LastWritten(ys).Some?
    requires k.pk != map[] && WireStorableRow(xs, forA) && WireStorableRow(ys, forB)
    requires Keeps(xs, forA) && Keeps(ys, forB)
    ensures RowEnd(base, xs, a, forA, b) == RowEnd(base, ys, b, forB, a) <==> WireMeets(xs, a, forA, ys, b, forB)
  {
    var v, w := RowEnd(base, xs, a, forA, b).value, RowEnd(base, ys, b, forB, a).value;
    WrittenColumnsMeet(schema, required, k, base, xs, a, n, forB, ys, b, m, forA, "");
    forall c | c in v
      ensures c in w && c in LastRow(xs) && c in LastRow(ys)
      ensures v[c] == w[c] <==>
              LastRow(xs)[c] == LastRow(ys)[c] || (Holds(xs, a, forA, b, c) <==> !Holds(ys, b, forB, a, c))
    {
      WrittenColumnsMeet(schema, required, k, base, xs, a, n, forB, ys, b, m, forA, c);
    }
    SameColumns(v, w);
  }

  /** Where this side left no row, both sides end with the row that the other one wrote last. */
  lemma OneWrittenRow(schema: Schema, required: Required, k: RowKey, base: Option<Row>, xs: Log, a: string,
        n: nat, forB: Log, ys: Log, b: string, m: nat, forA: Log)
    requires OwnHistory(schema, required, k, base, xs) && Arrives(xs, n, forB) && LastWritten(xs).None?
    requires OwnHistory(schema, required, k, base, ys) && Arrives(ys, m, forA)
    requires k.pk != map[] && WireStorableRow(xs, forA) && WireStorableRow(ys, forB)
    requires Keeps(xs, forA) && Keeps(ys, forB)
    ensures RowEnd(base, xs, a, forA, b) == Some(LastRow(ys)) == RowEnd(base, ys, b, forB, a)
  {
    ArrivesOnWire(schema, required, k, base, xs, n, forB);
    ArrivesOnWire(schema, required, k, base, ys, m, forA);
    InsertIsWrite(xs);
    InsertIsWrite(ys);
    LastRowIsFull(schema, required, k, base, ys);
    ColumnEndsWith(schema, required, k, base, xs, a, forA, b, "");
    ColumnEndsWith(schema, required, k, base, ys, b, forB, a, "");
    var v, w := RowEnd(base, xs, a, forA, b).value, RowEnd(base, ys, b, forB, a).value;
    forall c | c in LastRow(ys) ensures c in v && v[c] == LastRow(ys)[c] && c in w && w[c] == LastRow(ys)[c] {
      OwnColumns(schema, required, k, base, xs);
      ColumnEndsWith(schema, required, k, base, xs, a, forA, b, c);
      ColumnEndsWith(schema, required, k, base, ys, b, forB, a, c);
    }
    SameColumns(v, LastRow(ys));
    SameColumns(w, LastRow(ys));
  }

  /** Two replicas that wrote a row in any way, and stored last the ends of each other's logs, end equal
      exactly when the logs meet. */
  lemma RowConvergesExactlyWhen(schema: Schema, required: Required, k: RowKey, base: Option<Row>, xs: Log, a: string,
        n: nat, forB: Log, ys: Log, b: string, m: nat, forA: Log)
    requires OwnHistory(schema, required, k, base, xs) && Arrives(xs, n, forB)
    requires OwnHistory(schema, required, k, base, ys) && Arrives(ys, m, forA)
    requires k.pk != map[] && WireStorableRow(xs, forA) && WireStorableRow(ys, forB)
    ensures RowEnd(base, xs, a, forA, b) == RowEnd(base, ys, b, forB, a) <==> WireMeets(xs, a, forA, ys, b, forB)
  {
    if Keeps(xs, forA) && Keeps(ys, forB) {
      if LastWritten(xs).None? {
        OneWrittenRow(schema, required, k, base, xs, a, n, forB, ys, b, m, forA);
      } else if LastWritten(ys).None? {
        OneWrittenRow(schema, required, k, base, ys, b, m, forA, xs, a, n, forB);
      } else {
        WrittenRowsMeet(schema, required, k, base, xs, a, n, forB, ys, b, m, forA);
      }
    }
  }

  /** Of rows that arrive with the row itself, two replicas cannot both hold a column. */
  lemma NotBothHold(schema: Schema, required: Required, k: RowKey, base: Option<Row>, xs: Log, a: string, n: nat,
        forB: Log, ys: Log, b: string, m: nat, forA: Log, c: string)
    requires OwnHistory(schema, required, k, base, xs) && NondecreasingTime(xs) && Arrives(xs, n, forB)
    requires OwnHistory(schema, required, k, base, ys) && NondecreasingTime(ys) && Arrives(ys, m, forA)
    requires LastWritten(forA).Some? && LastWritten(forB).Some?
    ensures !(Holds(xs, a, forA, b, c) && Holds(ys, b, forB, a, c))
  {
    LessIsStrictOrder(a, b, a);
    LastTimeArrives(xs, n, forB);
    LastTimeArrives(ys, m, forA);
    if Holds(xs, a, forA, b, c) && Holds(ys, b, forB, a, c) {
      WritesNotAhead(schema, base, xs, c);
      WritesNotAhead(schema, base, ys, c);
    }
  }

  lemma LastTimeArrives(log: Log, n: nat, incoming: Log)
    requires Arrives(log, n, incoming) && LastWritten(incoming).Some?
    ensures LastWritten(log).Some? && LastWritten(log).value.Millis() == LastWritten(incoming).value.Millis()
  {
    LastTimeIsSame(log[n..], incoming);
    LastRowOfEnd(log, n);
  }

  lemma {:induction false} LastTimeIsSame(log: Log, incoming: Log)
    requires Retagged(AllReceived(log), incoming) && LastWritten(incoming).Some?
    ensures LastWritten(log).Some? && LastWritten(log).value.Millis() == LastWritten(incoming).value.Millis()
  {
    assert Last(incoming) == Received(Last(log)).(clearTags := Last(incoming).clearTags);
    if Last(log).optype.DELETE? { LastTimeIsSame(Front(log), Front(incoming)); }
  }

  /** No column was written after the row was written last. */
  lemma {:induction false} WritesNotAhead(schema: Schema, base: Option<Row>, log: Log, c: string)
    requires RowWellLogged(schema, base, log) && NondecreasingTime(log) && c in ColumnsOf(RemoteRow(log))
    ensures LastWritten(log).Some? && ColumnsOf(RemoteRow(log))[c].timestamp <= LastWritten(log).value.Millis()
  {
    var front, e := Front(log), Last(log);
    assert forall i :: 0 <= i < |front| ==> front[i] == log[i];
    AddIsUpdate(RemoteRow(front), e);
    if c !in ChangedColumns(e) {
      WritesNotAhead(schema, base, front, c);
      LastWrittenInLog(front);
    } else {
      assert !e.optype.DELETE?;
    }
  }

  lemma {:induction false} LastWrittenInLog(log: Log)
    ensures LastWritten(log).Some? ==> exists i :: 0 <= i < |log| && log[i] == LastWritten(log).value
  {
    if log != [] {
      if Last(log).optype.DELETE? {
        LastWrittenInLog(Front(log));
        if LastWritten(log).Some? {
          var i :| 0 <= i < |log| - 1 && Front(log)[i] == LastWritten(log).value;
          assert log[i] == LastWritten(log).value;
        }
      } else {
        assert log[|log| - 1] == LastWritten(log).value;
      }
    }
  }

  /** Add wins over the wire: when the last entry of each side travels alone, with the tags of its row, both
      replicas drop the row exactly when both deleted it last, and otherwise both keep it. */
  lemma LastEntriesAgree(xs: Log, a: string, ys: Log, b: string)
    requires xs != [] && Unseen(ys, Tag(a, Last(xs).Millis()))
    requires ys != [] && Unseen(xs, Tag(b, Last(ys).Millis()))
    ensures var forA, forB := AllReceived(AsSent([Last(ys)], b)), AllReceived(AsSent([Last(xs)], a));
      (Keeps(xs, forA) <==> Keeps(ys, forB)) &&
      (!Keeps(xs, forA) <==> Last(xs).optype.DELETE? && Last(ys).optype.DELETE?) &&
      WireStorableRow(xs, forA) == (!Last(xs).optype.DELETE? && Last(ys).optype.DELETE? ==> HasInsert(xs))
  {
    KeepsExactlyWhen(xs, [Last(ys)], b);
    KeepsExactlyWhen(ys, [Last(xs)], a);
    KeepsReceived(xs, AsSent([Last(ys)], b));
    KeepsReceived(ys, AsSent([Last(xs)], a));
    LastRowArrives([Last(ys)], AllReceived(AsSent([Last(ys)], b)));
    assert Front([Last(ys)]) == [];
  }

  /** A row deleted here, of which a write arrives that was not seen, ends as the writer left it, also when
      the writer could not store the deletion. */
  lemma DeletedRowComesBack(schema: Schema, required: Required, k: RowKey, base: Option<Row>, xs: Log, a: string,
        ys: Log, b: string, m: nat, forA: Log)
    requires OwnHistory(schema, required, k, base, xs) && LastWritten(xs).None? && k.pk != map[]
    requires OwnHistory(schema, required, k, base, ys) && Arrives(ys, m, forA) && !Last(ys).optype.DELETE?
    requires Keeps(xs, forA)
    ensures WireStorableRow(xs, forA) && RowEnd(base, xs, a, forA, b) == RowEnd(base, ys, b, [], a)
  {
    ArrivesOnWire(schema, required, k, base, ys, m, forA);
    ReceivedFold(schema, required, k, forA);
    OwnColumns(schema, required, k, base, xs);
    assert ColumnsOf(RemoteRow(xs)) == map[];
    NothingMerges(a, WrittenWhole(forA), b);
    ValuesOfWhole(LastRow(forA), LastWritten(forA).value.Millis());
    assert LastRow(ys) == RowOf(Last(ys).newRow);
  }

  /** A row that only the other side wrote ends as it did there. */
  lemma OneSidedOnWire(schema: Schema, required: Required, k: RowKey, base: Option<Row>, log: Log, b: string,
        n: nat, incoming: Log, a: string)
    requires OwnHistory(schema, required, k, base, log) && Arrives(log, n, incoming)
    ensures incoming != [] && WireStorableRow([], incoming)
    ensures RowEnd(base, [], b, incoming, a) == ReplayRow(base, log)
  {
    ArrivesOnWire(schema, required, k, base, log, n, incoming);
    ReceivedFold(schema, required, k, incoming);
    NothingMerges(b, WrittenWhole(incoming), a);
    assert ColumnsOf(RemoteRow([])) == map[];
    if Keeps([], incoming) {
      ValuesOfWhole(LastRow(incoming), LastWritten(incoming).value.Millis());
      assert LastRow(log) == RowOf(Last(log).newRow);
    }
  }

  lemma ValuesOfWhole(row: Row, t: int)
    ensures Values(Whole(row, t)) == row
  {
  }

  // ---- Whole tables ----

  ghost predicate WireBatch(schema: Schema, required: Required, batch: Log) {
    forall k: RowKey :: RowLog(batch, k) != [] ==> k.pk != map[] && WireLog(schema, required, k, RowLog(batch, k))
  }

  ghost predicate WireStorable(mine: Log, batch: Log) {
    forall k: RowKey :: RowLog(mine, k) != [] && RowLog(batch, k) != [] ==>
      WireStorableRow(RowLog(mine, k), RowLog(batch, k))
  }

  lemma WireIsMergeable(schema: Schema, required: Required, batch: Log)
    requires WireBatch(schema, required, batch)
    ensures Mergeable(schema, required, batch)
  {
    forall k: RowKey | RowLog(batch, k) != [] ensures Covering(schema, required, k, RowLog(batch, k)) {
      WireCovers(schema, required, k, RowLog(batch, k));
    }
    forall i | 0 <= i < |batch| ensures KeyedEntry(batch[i]) {
      RowEntries(batch, batch[i].key, batch[i]);
      var log := RowLog(batch, batch[i].key);
      var j :| 0 <= j < |log| && log[j] == batch[i];
      assert WireEntry(schema, required, batch[i].key, log[j]);
    }
  }

  /** A received batch can be stored exactly when every row that was also written here, and that the merge
      keeps, was inserted here or arrives with a write. */
  lemma WireStorableExactlyWhen(schema: Schema, required: Required, mine: Log, batch: Log)
    requires WireBatch(schema, required, batch)
    ensures BatchStorable(mine, batch) <==> WireStorable(mine, batch)
  {
    forall k: RowKey | RowLog(batch, k) != []
      ensures StorableRow(RowLog(mine, k), RowLog(batch, k)) <==>
              (RowLog(mine, k) != [] ==> WireStorableRow(RowLog(mine, k), RowLog(batch, k)))
    {
      ReceivedFold(schema, required, k, RowLog(batch, k));
    }
  }

  /** The log is received in these batches, with any tags. */
  predicate Cut(log: Log, batches: seq<Log>) {
    Retagged(AllReceived(log), Flatten(batches))
  }

  lemma {:induction false} RowLogAppends(xs: Log, ys: Log, k: RowKey)
    ensures RowLog(xs + ys, k) == RowLog(xs, k) + RowLog(ys, k)
  {
    if ys == [] {
      assert xs + ys == xs;
    } else {
      assert Front(xs + ys) == xs + Front(ys) && Last(xs + ys) == Last(ys);
      RowLogAppends(xs, Front(ys), k);
    }
  }

  lemma {:induction false} RowOfReceived(log: Log, k: RowKey)
    ensures RowLog(AllReceived(log), k) == AllReceived(RowLog(log, k))
  {
    if log != [] {
      assert Front(AllReceived(log)) == AllReceived(Front(log));
      RowOfReceived(Front(log), k);
    }
  }

  /** The entries of a row arrive as they were logged. */
  lemma CutRow(log: Log, batches: seq<Log>, k: RowKey)
    requires Cut(log, batches)
    ensures Retagged(AllReceived(RowLog(log, k)), RowLog(Flatten(batches), k))
  {
    RetaggedRow(AllReceived(log), Flatten(batches), k);
    RowOfReceived(log, k);
  }

  lemma CutIsWire(schema: Schema, required: Required, base: Table, log: Log, batches: seq<Log>, j: nat)
    requires Replica(schema, required, base, log) && Cut(log, batches) && j < |batches|
    requires forall i :: 0 <= i < |log| ==> log[i].key.pk != map[]
    ensures WireBatch(schema, required, batches[j])
  {
    var all: Log, batch := Flatten(batches), batches[j];
    forall k: RowKey | RowLog(batch, k) != []
      ensures k.pk != map[] && WireLog(schema, required, k, RowLog(batch, k))
    {
      CutRow(log, batches, k);
      OwnRow(schema, required, base, log, k);
      LoggedIsWire(schema, required, k, Get(base, k), RowLog(log, k), RowLog(all, k));
      forall i | 0 <= i < |RowLog(batch, k)|
        ensures WireEntry(schema, required, k, RowLog(batch, k)[i]) && RowLog(log, k) != []
      {
        var e := RowLog(batch, k)[i];
        RowEntries(batch, k, e);
        GroupsAreInside(batches, j, e);
        RowEntries(all, k, e);
        var m :| 0 <= m < |RowLog(all, k)| && RowLog(all, k)[m] == e;
        assert WireEntry(schema, required, k, RowLog(all, k)[m]);
      }
      assert RowLog(log, k) != [] by { assert WireEntry(schema, required, k, RowLog(batch, k)[0]); }
      RowEntries(log, k, RowLog(log, k)[0]);
    }
  }

  /** When all batches are stored, the one stored last for a row is the end of what arrives of the row. */
  lemma {:induction false} LastStoredIsEnd(mine: Log, batches: seq<Log>, k: RowKey)
    requires forall i :: 0 <= i < |batches| ==> BatchStorable(mine, batches[i])
    ensures var all, last := RowLog(Flatten(batches), k), LastStored(mine, batches, k);
      |last| <= |all| && last == all[|all| - |last|..] && (last == [] ==> all == [])
  {
    if batches != [] {
      assert forall i :: 0 <= i < |batches| - 1 ==> Front(batches)[i] == batches[i];
      LastStoredIsEnd(mine, Front(batches), k);
      RowLogAppends(Flatten(Front(batches)), Last(batches), k);
      assert BatchStorable(mine, batches[|batches| - 1]);
    }
  }

  /** Then it is the end of the row's own log as it arrives. */
  lemma LastStoredArrives(mine: Log, log: Log, batches: seq<Log>, k: RowKey) returns (n: nat)
    requires Cut(log, batches) && forall i :: 0 <= i < |batches| ==> BatchStorable(mine, batches[i])
    ensures LastStored(mine, batches, k) == [] <==> RowLog(log, k) == []
    ensures RowLog(log, k) != [] ==> Arrives(RowLog(log, k), n, LastStored(mine, batches, k))
  {
    var own, all, last := RowLog(log, k), RowLog(Flatten(batches), k), LastStored(mine, batches, k);
    LastStoredIsEnd(mine, batches, k);
    CutRow(log, batches, k);
    n := |all| - |last|;
    if own != [] {
      forall i | 0 <= i < |last| ensures last[i] == AllReceived(own[n..])[i].(clearTags := last[i].clearTags) {
        assert last[i] == all[n + i];
      }
    }
  }

  /** Rows that both wrote meet; what only one side wrote always does. */
  ghost predicate AllMeetOnWire(xs: Log, a: string, forA: seq<Log>, ys: Log, b: string, forB: seq<Log>) {
    forall k: RowKey ::
      LastStored(xs, forA, k) != [] && LastStored(ys, forB, k) != [] ==>
      WireMeets(RowLog(xs, k), a, LastStored(xs, forA, k), RowLog(ys, k), b, LastStored(ys, forB, k))
  }

  ghost predicate AllStored(mine: Log, batches: seq<Log>) {
    forall i :: 0 <= i < |batches| ==> BatchStorable(mine, batches[i])
  }

  lemma WireRowsMeet(schema: Schema, required: Required, base: Table, xs: Log, a: string, forA: seq<Log>,
        ys: Log, b: string, forB: seq<Log>, k: RowKey)
    requires Replica(schema, required, base, xs) && Cut(xs, forB) && AllMergeable(schema, required, forB)
    requires Replica(schema, required, base, ys) && Cut(ys, forA) && AllMergeable(schema, required, forA)
    requires AllStored(xs, forA) && AllStored(ys, forB)
    ensures Meets(Get(base, k), RowLog(xs, k), a, LastStored(xs, forA, k),
                  RowLog(ys, k), b, LastStored(ys, forB, k)) <==>
            (LastStored(xs, forA, k) != [] && LastStored(ys, forB, k) != [] ==>
             WireMeets(RowLog(xs, k), a, LastStored(xs, forA, k), RowLog(ys, k), b, LastStored(ys, forB, k)))
  {
    var p, q, inA, inB := RowLog(xs, k), RowLog(ys, k), LastStored(xs, forA, k), LastStored(ys, forB, k);
    var m := LastStoredArrives(xs, ys, forA, k);
    var n := LastStoredArrives(ys, xs, forB, k);
    OwnRow(schema, required, base, xs, k);
    OwnRow(schema, required, base, ys, k);
    LastStoredIsAccepted(schema, required, xs, forA, k);
    LastStoredIsAccepted(schema, required, ys, forB, k);
    RowsMeet(schema, required, k, Get(base, k), p, a, inA, q, b, inB);
    OneRowMeets(schema, required, k, Get(base, k), p, a, n, inB, q, b, m, inA);
  }

  lemma OneRowMeets(schema: Schema, required: Required, k: RowKey, base: Option<Row>, xs: Log, a: string,
        n: nat, forB: Log, ys: Log, b: string, m: nat, forA: Log)
    requires OwnHistory(schema, required, k, base, xs) && Accepted(schema, required, k, xs, forA)
    requires OwnHistory(schema, required, k, base, ys) && Accepted(schema, required, k, ys, forB)
    requires (forB == [] <==> xs == []) && (xs != [] ==> Arrives(xs, n, forB))
    requires (forA == [] <==> ys == []) && (ys != [] ==> Arrives(ys, m, forA))
    ensures RowEnd(base, xs, a, forA, b) == RowEnd(base, ys, b, forB, a) <==>
            (forA != [] && forB != [] ==> WireMeets(xs, a, forA, ys, b, forB))
  {
    if xs != [] && ys != [] {
      ArrivesOnWire(schema, required, k, base, xs, n, forB);
      ArrivesOnWire(schema, required, k, base, ys, m, forA);
      ReceivedFold(schema, required, k, forA);
      ReceivedFold(schema, required, k, forB);
      RowConvergesExactlyWhen(schema, required, k, base, xs, a, n, forB, ys, b, m, forA);
    } else if xs != [] {
      OneSidedOnWire(schema, required, k, base, xs, b, n, forB, a);
    } else if ys != [] {
      OneSidedOnWire(schema, required, k, base, ys, a, m, forA, b);
    }
  }

  /** Done for exactly those batches in which every row that was also written here, and that the merge
      keeps, was inserted here or arrives with a write. */
  ghost predicate WireJudged(mine: Log, batches: seq<Log>, results: seq<Outcome>) {
    |results| == |batches| &&
    forall i :: 0 <= i < |batches| ==> (results[i] == Done <==> WireStorable(mine, batches[i]))
  }

  ghost predicate AllDone(results: seq<Outcome>) {
    forall i :: 0 <= i < |results| ==> results[i] == Done
  }

  lemma JudgedOnWire(schema: Schema, required: Required, base: Table, mine: Log, log: Log, batches: seq<Log>,
        results: seq<Outcome>)
    requires Replica(schema, required, base, log) && Cut(log, batches) && Judged(mine, batches, results)
    requires forall i :: 0 <= i < |log| ==> log[i].key.pk != map[]
    ensures WireJudged(mine, batches, results) && (AllDone(results) <==> AllStored(mine, batches))
  {
    forall i | 0 <= i < |batches| ensures BatchStorable(mine, batches[i]) <==> WireStorable(mine, batches[i]) {
      CutIsWire(schema, required, base, log, batches, i);
      WireStorableExactlyWhen(schema, required, mine, batches[i]);
    }
  }

  lemma CutIsMergeable(schema: Schema, required: Required, base: Table, log: Log, batches: seq<Log>)
    requires Replica(schema, required, base, log) && Cut(log, batches)
    requires forall i :: 0 <= i < |log| ==> log[i].key.pk != map[]
    ensures AllMergeable(schema, required, batches)
  {
    forall i | 0 <= i < |batches| ensures Mergeable(schema, required, batches[i]) {
      CutIsWire(schema, required, base, log, batches, i);
      WireIsMergeable(schema, required, batches[i]);
    }
  }

  lemma AllRowsMeetOnWire(schema: Schema, required: Required, base: Table, xs: Log, a: string, forA: seq<Log>,
        ys: Log, b: string, forB: seq<Log>)
    requires Replica(schema, required, base, xs) && Cut(xs, forB) && AllMergeable(schema, required, forB)
    requires Replica(schema, required, base, ys) && Cut(ys, forA) && AllMergeable(schema, required, forA)
    requires AllStored(xs, forA) && AllStored(ys, forB)
    ensures AllMeet(base, xs, a, forA, ys, b, forB) <==> AllMeetOnWire(xs, a, forA, ys, b, forB)
  {
    forall k: RowKey
      ensures Meets(Get(base, k), RowLog(xs, k), a, LastStored(xs, forA, k),
                    RowLog(ys, k), b, LastStored(ys, forB, k)) <==>
              (LastStored(xs, forA, k) != [] && LastStored(ys, forB, k) != [] ==>
               WireMeets(RowLog(xs, k), a, LastStored(xs, forA, k), RowLog(ys, k), b, LastStored(ys, forB, k)))
    {
      WireRowsMeet(schema, required, base, xs, a, forA, ys, b, forB, k);
    }
  }

  /** One side of an exchange: it executed its own writes on the base table, and then stored the batches in
      which it received the other's log. */
  ghost predicate Exchanged(schema: Schema, base: Table, mine: Log, my: string, theirs: Log, their: string,
                            batches: seq<Log>, before: Db, results: seq<Outcome>, after: Db) {
    Replica(schema, before.required, base, mine) && Replica(schema, before.required, base, theirs) &&
    (forall i :: 0 <= i < |theirs| ==> theirs[i].key.pk != map[]) && Cut(theirs, batches) &&
    before.rows == Replay(base, mine) && Delivered(before, mine, my, batches, their, results, after)
  }

  lemma OneSideStores(schema: Schema, base: Table, mine: Log, my: string, theirs: Log, their: string,
        batches: seq<Log>, before: Db, results: seq<Outcome>, after: Db)
    requires Exchanged(schema, base, mine, my, theirs, their, batches, before, results, after)
    ensures StoredAll(schema, base, mine, my, batches, their, before, results, after)
    ensures WireJudged(mine, batches, results) && (AllDone(results) <==> AllStored(mine, batches))
  {
    CutIsMergeable(schema, before.required, base, theirs, batches);
    DeliveredRows(schema, base, mine, my, batches, their, before, results, after);
    JudgedOnWire(schema, before.required, base, mine, theirs, batches, results);
  }

  lemma BothSidesMeet(schema: Schema, base: Table, xs: Log, a: string, forA: seq<Log>, ys: Log, b: string,
        forB: seq<Log>, here: Db, rs: seq<Outcome>, after: Db, there: Db, rs': seq<Outcome>, after': Db)
    requires Exchanged(schema, base, xs, a, ys, b, forA, here, rs, after)
    requires Exchanged(schema, base, ys, b, xs, a, forB, there, rs', after')
    requires there.required == here.required && AllStored(xs, forA) && AllStored(ys, forB)
    ensures AllMeet(base, xs, a, forA, ys, b, forB) <==> AllMeetOnWire(xs, a, forA, ys, b, forB)
  {
    CutIsMergeable(schema, here.required, base, xs, forB);
    CutIsMergeable(schema, here.required, base, ys, forA);
    AllRowsMeetOnWire(schema, here.required, base, xs, a, forA, ys, b, forB);
  }

  /** Convergence of the databases when entries travel as the code sends them, cut into batches anywhere and
      with any tags.  A batch goes through exactly when the logs say so.  The tables are equal afterwards
      exactly when every row meets; when every batch went through, exactly when the rows that both wrote
      meet on the wire. */
  lemma ReplicasConvergeExactlyWhen(schema: Schema, base: Table, xs: Log, a: string, forA: seq<Log>,
        ys: Log, b: string, forB: seq<Log>, here: Db, rs: seq<Outcome>, after: Db,
        there: Db, rs': seq<Outcome>, after': Db)
    requires Exchanged(schema, base, xs, a, ys, b, forA, here, rs, after)
    requires Exchanged(schema, base, ys, b, xs, a, forB, there, rs', after')
    requires there.required == here.required
    ensures WireJudged(xs, forA, rs) && WireJudged(ys, forB, rs')
    ensures after.rows == after'.rows <==> AllMeet(base, xs, a, forA, ys, b, forB)
    ensures AllDone(rs) && AllDone(rs') ==>
      (after.rows == after'.rows <==> AllMeetOnWire(xs, a, forA, ys, b, forB))
  {
    OneSideStores(schema, base, xs, a, ys, b, forA, here, rs, after);
    OneSideStores(schema, base, ys, b, xs, a, forB, there, rs', after');
    ReplicasConverge(schema, base, xs, a, forA, ys, b, forB, here, rs, after, there, rs', after');
    if AllDone(rs) && AllDone(rs') {
      BothSidesMeet(schema, base, xs, a, forA, ys, b, forB, here, rs, after, there, rs', after');
    }
  }

  // ---- Where they do not meet ----

  /** Two updates of different columns that do not converge, whatever their tags: the earlier one is undone
      on its own replica and kept on the other. */
  lemma UpdatesMayDiverge(k: RowKey, base: Row, xs: Log, forB: Log, ys: Log, forA: Log)
    requires k == RowKey("t", map["id" := Number(1)])
    requires base == map["id" := Number(1), "p" := Number(0), "q" := Number(0)]
    requires xs == [OplogEntry(1, k, UPDATE, Some(1), Some(base["p" := Number(7)]), Some(base), [Tag("c", 0)])]
    requires ys == [OplogEntry(1, k, UPDATE, Some(2), Some(base["q" := Number(8)]), Some(base), [Tag("c", 0)])]
    requires Arrives(xs, 0, forB) && Arrives(ys, 0, forA)
    ensures WireStorableRow(xs, forA) && WireStorableRow(ys, forB) && !WireMeets(xs, "a", forA, ys, "b", forB)
    ensures RowEnd(Some(base), xs, "a", forA, "b") != RowEnd(Some(base), ys, "b", forB, "a")
  {
    var schema: Schema := map["t" := {"id", "p", "q"}];
    assert Front(xs) == [] && Front(ys) == [] && xs[0..] == xs && ys[0..] == ys;
    assert RowWellLogged(schema, Some(base), []) && AllFilled(map[], k, []);
    assert Logged(schema, Some(base), xs[0]) && Logged(schema, Some(base), ys[0]);
    assert OwnHistory(schema, map[], k, Some(base), xs) && OwnHistory(schema, map[], k, Some(base), ys);
    OneEntry(xs[0]);
    OneEntry(ys[0]);
    LastRowArrives(xs, forB);
    LastRowArrives(ys, forA);
    LastTimeIsSame(xs, forB);
    LastTimeIsSame(ys, forA);
    assert "p" in LastRow(xs) && "p" in LastRow(ys) && LastRow(xs)["p"] != LastRow(ys)["p"];
    assert !Holds(xs, "a", forA, "b", "p") && !Holds(ys, "b", forB, "a", "p");
    RowConvergesExactlyWhen(schema, map[], k, Some(base), xs, "a", 0, forB, ys, "b", 0, forA);
  }

  lemma OneEntry(e: OplogEntry)
    ensures ColumnsOf(RemoteRow([e])) == ChangedColumns(e)
  {
    assert Front([e]) == [];
  }

  /** A deletion that arrives for a row that was only updated here cannot be stored, whatever its tags: the
      merge keeps the row, and neither side has its key columns to write. */
  lemma DeletionOfUpdatedRowIsNotStored(k: RowKey, base: Row, cleared: seq<Tag>, xs: Log, ys: Log, forA: Log)
    requires xs == [OplogEntry(1, k, UPDATE, Some(1), Some(base["p" := Number(7)]), Some(base), cleared)]
    requires ys == [OplogEntry(1, k, DELETE, Some(2), None, Some(base), cleared)] && Arrives(ys, 0, forA)
    ensures !WireStorableRow(xs, forA)
  {
    assert Front(xs) == [] && Front(ys) == [] && !HasInsert([]) && LastWritten([]).None? && ys[0..] == ys;
    assert !HasInsert(xs) && LastWritten(ys).None?;
    LastRowArrives(ys, forA);
  }
}
