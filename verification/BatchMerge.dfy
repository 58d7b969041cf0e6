/** What an incoming batch is merged with, in terms of the oplog itself: the stamped entries above the
    acknowledged position, as clients/typescript/src/satellite/process.ts selects them. */
module BatchMerge {
  import opened Types
  import opened Merge
  import opened Oplog
  import opened OplogFold
  import opened Database
  import opened Apply
  import opened Process
  import Convergence

  /** The entries of a log that count for row `k`: all of them, or the stamped ones above a position. */
  predicate Counts(e: OplogEntry, since: Option<int>, k: RowKey) {
    e.key == k && (since.Some? ==> e.rowid > since.value && e.timestamp.Some?)
  }

  function Counted(log: Log, since: Option<int>, k: RowKey): Log {
    match since
    case None => RowLog(log, k)
    case Some(position) => RowLog(Select(log, position, None), k)
  }

  lemma CountedStep(log: Log, since: Option<int>, k: RowKey)
    requires log != []
    ensures Counted(log, since, k) ==
            if Counts(Last(log), since, k) then Counted(Front(log), since, k) + [Last(log)]
            else Counted(Front(log), since, k)
  {
    if since.Some? {
      var front := Select(Front(log), since.value, None);
      if Selected(Last(log), since.value, None) {
        assert Front(front + [Last(log)]) == front;
      }
    }
  }

  // ---- Columns ----

  /** Entry `i` is the last one that counts and wrote column `c`. */
  predicate LastWrites(log: Log, since: Option<int>, k: RowKey, i: nat, c: string) {
    i < |log| && Counts(log[i], since, k) && c in ChangedColumns(log[i]) &&
    forall j :: i < j < |log| && Counts(log[j], since, k) ==> c !in ChangedColumns(log[j])
  }

  predicate NoneWrites(log: Log, since: Option<int>, k: RowKey, c: string) {
    forall i :: 0 <= i < |log| && Counts(log[i], since, k) ==> c !in ChangedColumns(log[i])
  }

  lemma LastWritesStep(log: Log, since: Option<int>, k: RowKey, i: nat, c: string)
    requires log != [] && i < |log| - 1
    ensures LastWrites(log, since, k, i, c) <==>
            LastWrites(Front(log), since, k, i, c) && !(Counts(Last(log), since, k) && c in ChangedColumns(Last(log)))
  {
    assert forall j :: 0 <= j < |log| - 1 ==> Front(log)[j] == log[j];
  }

  lemma NoneWritesStep(log: Log, since: Option<int>, k: RowKey, c: string)
    requires log != []
    ensures NoneWrites(log, since, k, c) <==>
            NoneWrites(Front(log), since, k, c) && !(Counts(Last(log), since, k) && c in ChangedColumns(Last(log)))
  {
    assert forall j :: 0 <= j < |log| - 1 ==> Front(log)[j] == log[j];
    assert log[|log| - 1] == Last(log);
  }

  lemma CellsStep(log: Log, since: Option<int>, k: RowKey)
    requires log != []
    ensures ColumnsOf(RemoteRow(Counted(log, since, k))) ==
            if Counts(Last(log), since, k)
            then ColumnsOf(RemoteRow(Counted(Front(log), since, k))) + ChangedColumns(Last(log))
            else ColumnsOf(RemoteRow(Counted(Front(log), since, k)))
  {
    CountedStep(log, since, k);
    var front, e := Counted(Front(log), since, k), Last(log);
    if Counts(e, since, k) {
      assert Front(front + [e]) == front && Last(front + [e]) == e;
      AddIsUpdate(RemoteRow(front), e);
    }
  }

  /** A column that no entry wrote is not in the fold of the entries that count. */
  lemma {:induction false} ColumnsOfCounted(log: Log, since: Option<int>, k: RowKey, c: string)
    ensures c !in ColumnsOf(RemoteRow(Counted(log, since, k))) <==> NoneWrites(log, since, k, c)
  {
    if log == [] {
      assert Counted(log, since, k) == [];
    } else {
      ColumnsOfCounted(Front(log), since, k, c);
      CellsStep(log, since, k);
      NoneWritesStep(log, since, k, c);
    }
  }

  /** A column in that fold is its last write. */
  lemma {:induction false} FoldOfCounted(log: Log, since: Option<int>, k: RowKey, i: nat, c: string)
    requires LastWrites(log, since, k, i, c)
    ensures var cells := ColumnsOf(RemoteRow(Counted(log, since, k)));
      c in cells && cells[c] == ChangedColumns(log[i])[c]
  {
    CellsStep(log, since, k);
    if i < |log| - 1 {
      LastWritesStep(log, since, k, i, c);
      FoldOfCounted(Front(log), since, k, i, c);
    }
  }

  // ---- Places ----

  /** The places of the entries that count, in order. */
  function Places(log: Log, since: Option<int>, k: RowKey): seq<nat> {
    if log == [] then []
    else
      var front := Places(Front(log), since, k);
      if Counts(Last(log), since, k) then front + [|log| - 1] else front
  }

  lemma {:induction false} PlacesAre(log: Log, since: Option<int>, k: RowKey)
    ensures var ps, counted := Places(log, since, k), Counted(log, since, k);
      |ps| == |counted| && (forall m :: 0 <= m < |ps| ==> ps[m] < |log| && log[ps[m]] == counted[m]) &&
      forall m, n :: 0 <= m < n < |ps| ==> ps[m] < ps[n]
  {
    if log != [] {
      PlacesAre(Front(log), since, k);
      CountedStep(log, since, k);
    }
  }

  lemma {:induction false} PlacesCount(log: Log, since: Option<int>, k: RowKey, i: nat)
    ensures i in Places(log, since, k) <==> i < |log| && Counts(log[i], since, k)
  {
    if log != [] { PlacesCount(Front(log), since, k, i); }
  }

  predicate FirstCounts(log: Log, since: Option<int>, k: RowKey, i: nat) {
    i < |log| && Counts(log[i], since, k) && forall j :: 0 <= j < i ==> !Counts(log[j], since, k)
  }

  predicate LastCounts(log: Log, since: Option<int>, k: RowKey, i: nat) {
    i < |log| && Counts(log[i], since, k) && forall j :: i < j < |log| ==> !Counts(log[j], since, k)
  }

  /** The ends of the entries that count. */
  lemma EndsCount(log: Log, since: Option<int>, k: RowKey, first: nat, last: nat)
    requires FirstCounts(log, since, k, first) && LastCounts(log, since, k, last)
    ensures var counted := Counted(log, since, k);
      counted != [] && counted[0] == log[first] && Last(counted) == log[last]
  {
    var ps := Places(log, since, k);
    PlacesAre(log, since, k);
    PlacesCount(log, since, k, first);
    PlacesCount(log, since, k, last);
    var m: nat :| m < |ps| && ps[m] == first;
    var n: nat :| n < |ps| && ps[n] == last;
    PlacesCount(log, since, k, ps[0]);
    PlacesCount(log, since, k, ps[|ps| - 1]);
    assert ps[0] in ps && ps[|ps| - 1] in ps;
    assert ps[0] == first && ps[|ps| - 1] == last;
  }

  lemma NoneCounts(log: Log, since: Option<int>, k: RowKey)
    ensures Counted(log, since, k) == [] <==> forall i :: 0 <= i < |log| ==> !Counts(log[i], since, k)
  {
    PlacesAre(log, since, k);
    var ps := Places(log, since, k);
    if ps != [] { PlacesCount(log, since, k, ps[0]); assert ps[0] in ps; }
    forall i | 0 <= i < |log| && ps == [] ensures !Counts(log[i], since, k) { PlacesCount(log, since, k, i); }
  }

  // ---- Cleared tags ----

  /** The tag was cleared by an entry that counts and after which none that counts has the stamp of the first. */
  ghost predicate Clears(log: Log, since: Option<int>, k: RowKey, first: nat, t: Tag)
    requires first < |log|
  {
    exists i: nat :: ClearsAt(log, since, k, first, i, t)
  }

  predicate ClearsAt(log: Log, since: Option<int>, k: RowKey, first: nat, i: nat, t: Tag)
    requires first < |log|
  {
    i < |log| && Counts(log[i], since, k) && t in log[i].clearTags &&
    forall j :: i < j < |log| && Counts(log[j], since, k) ==> log[j].timestamp != log[first].timestamp
  }

  lemma ClearedAtPlace(log: Log, since: Option<int>, k: RowKey, first: nat, n: nat, m: nat, t: Tag)
    requires FirstCounts(log, since, k, first)
    requires Counted(log, since, k) != [] && Counted(log, since, k)[0] == log[first]
    requires n <= m < |Counted(log, since, k)| && IsLastOfFirstStamp(Counted(log, since, k), n)
    requires t in Counted(log, since, k)[m].clearTags
    ensures Clears(log, since, k, first, t)
  {
    var ps, counted := Places(log, since, k), Counted(log, since, k);
    PlacesAre(log, since, k);
    forall j: nat | ps[m] < j < |log| && Counts(log[j], since, k) ensures log[j].timestamp != log[first].timestamp {
      PlacesCount(log, since, k, j);
      var l :| 0 <= l < |ps| && ps[l] == j;
      assert l > m && log[j] == counted[l];
    }
    PlacesCount(log, since, k, ps[m]);
    assert ps[m] in ps;
    assert ClearsAt(log, since, k, first, ps[m], t);
  }

  lemma PlaceOfClearing(log: Log, since: Option<int>, k: RowKey, first: nat, n: nat, i: nat, t: Tag)
    requires FirstCounts(log, since, k, first)
    requires Counted(log, since, k) != [] && Counted(log, since, k)[0] == log[first]
    requires n < |Counted(log, since, k)| && IsLastOfFirstStamp(Counted(log, since, k), n)
    requires ClearsAt(log, since, k, first, i, t)
    ensures ClearedFrom(Counted(log, since, k), n, t)
  {
    var ps, counted := Places(log, since, k), Counted(log, since, k);
    PlacesAre(log, since, k);
    PlacesCount(log, since, k, i);
    var m :| 0 <= m < |ps| && ps[m] == i;
    PlacesCount(log, since, k, ps[n]);
    assert ps[n] in ps && log[ps[n]] == counted[n];
    assert ps[n] <= i;
    assert t in counted[m].clearTags;
  }

  lemma ClearedPlaces(log: Log, since: Option<int>, k: RowKey, first: nat, n: nat, t: Tag)
    requires FirstCounts(log, since, k, first)
    requires Counted(log, since, k) != [] && Counted(log, since, k)[0] == log[first]
    requires n < |Counted(log, since, k)| && IsLastOfFirstStamp(Counted(log, since, k), n)
    ensures ClearedFrom(Counted(log, since, k), n, t) <==> Clears(log, since, k, first, t)
  {
    var counted := Counted(log, since, k);
    if ClearedFrom(counted, n, t) {
      var m :| n <= m < |counted| && t in counted[m].clearTags;
      ClearedAtPlace(log, since, k, first, n, m, t);
    }
    if Clears(log, since, k, first, t) {
      var i: nat :| ClearsAt(log, since, k, first, i, t);
      PlaceOfClearing(log, since, k, first, n, i, t);
    }
  }

  // ---- Batches ----

  lemma MergedOfCounted(s: State, clientId: string, incoming: Log, origin: string, k: RowKey)
    ensures var merged, remote := MergedWith(s, clientId, incoming, origin), RemoteRow(Counted(incoming, None, k));
      Get(merged, k) ==
      if remote.None? then None
      else Some(MergedRow(LocalRow(Counted(s.db.oplog, Some(s.lastAckd), k), clientId), clientId, remote.value, origin))
  {
    FoldIsRowByRow(Select(s.db.oplog, s.lastAckd, None), clientId, k);
    FoldIsRowByRow(incoming, clientId, k);
  }

  /** Column by column: against the stamped entries of the row above the acknowledged position, a merged
      column is the last write of either side, of both the later one by time and origin. */
  lemma BatchMergesColumns(s: State, clientId: string, incoming: Log, origin: string, k: RowKey, c: string,
        i: nat, j: nat)
    requires exists e :: e in incoming && e.key == k
    ensures k in MergedWith(s, clientId, incoming, origin)
    ensures var cells, own := MergedWith(s, clientId, incoming, origin)[k].changes, Some(s.lastAckd);
      var here, there := LastWrites(s.db.oplog, own, k, i, c), LastWrites(incoming, None, k, j, c);
      (here && there ==>
         c in cells &&
         cells[c] == if Later(s.db.oplog[i].Millis(), clientId, incoming[j].Millis(), origin)
                     then ChangedColumns(s.db.oplog[i])[c] else ChangedColumns(incoming[j])[c]) &&
      (here && NoneWrites(incoming, None, k, c) ==> c in cells && cells[c] == ChangedColumns(s.db.oplog[i])[c]) &&
      (there && NoneWrites(s.db.oplog, own, k, c) ==> c in cells && cells[c] == ChangedColumns(incoming[j])[c]) &&
      (c in cells <==> !NoneWrites(s.db.oplog, own, k, c) || !NoneWrites(incoming, None, k, c))
  {
    var local, remote := Counted(s.db.oplog, Some(s.lastAckd), k), Counted(incoming, None, k);
    MergedOfCounted(s, clientId, incoming, origin, k);
    NoneCounts(incoming, None, k);
    var e :| e in incoming && e.key == k;
    assert remote != [];
    ColumnsOfCounted(s.db.oplog, Some(s.lastAckd), k, c);
    ColumnsOfCounted(incoming, None, k, c);
    if LastWrites(s.db.oplog, Some(s.lastAckd), k, i, c) { FoldOfCounted(s.db.oplog, Some(s.lastAckd), k, i, c); }
    if LastWrites(incoming, None, k, j, c) { FoldOfCounted(incoming, None, k, j, c); }
    if local != [] { FoldsAgreeOnColumns(local, clientId); }
  }

  /** A row of which no entry counts here is merged as it arrives. */
  lemma BatchTakesOver(s: State, clientId: string, incoming: Log, origin: string, k: RowKey, first: nat, last: nat)
    requires FirstCounts(incoming, None, k, first) && LastCounts(incoming, None, k, last)
    requires forall i :: 0 <= i < |s.db.oplog| ==> !Counts(s.db.oplog[i], Some(s.lastAckd), k)
    ensures k in MergedWith(s, clientId, incoming, origin)
    ensures var merged := MergedWith(s, clientId, incoming, origin)[k];
      (merged.optype == REMOVE <==> incoming[last].optype.DELETE?) && merged.tags == incoming[first].clearTags
  {
    MergedOfCounted(s, clientId, incoming, origin, k);
    EndsCount(incoming, None, k, first, last);
    FirstStampIsKept(Counted(incoming, None, k), origin);
    FoldReflectsLast(Counted(incoming, None, k), origin);
    NoneCounts(s.db.oplog, Some(s.lastAckd), k);
  }

  /** A row that was written here, with entries from `p` to `q`, is removed exactly when it was deleted here
      last and each tag that arrives was cleared here.  Tags that were not cleared stay, and the own tag
      joins them. */
  lemma BatchRemovesExactlyWhen(s: State, clientId: string, incoming: Log, origin: string, k: RowKey,
        first: nat, p: nat, q: nat)
    requires FirstCounts(incoming, None, k, first)
    requires FirstCounts(s.db.oplog, Some(s.lastAckd), k, p) && LastCounts(s.db.oplog, Some(s.lastAckd), k, q)
    ensures k in MergedWith(s, clientId, incoming, origin)
    ensures var merged, oplog, own := MergedWith(s, clientId, incoming, origin)[k], s.db.oplog, Some(s.lastAckd);
      (merged.optype == REMOVE <==>
         oplog[q].optype.DELETE? && forall t :: t in incoming[first].clearTags ==> Clears(oplog, own, k, p, t)) &&
      forall t :: t in merged.tags <==>
        (t in incoming[first].clearTags && !Clears(oplog, own, k, p, t)) || TagOf(oplog[q], clientId) == Some(t)
  {
    var oplog, own := s.db.oplog, Some(s.lastAckd);
    var local, remote := Counted(oplog, own, k), Counted(incoming, None, k);
    MergedOfCounted(s, clientId, incoming, origin, k);
    FirstIsKept(incoming, k, first, origin);
    EndsCount(oplog, own, k, p, q);
    ClearedHere(oplog, own, k, p, clientId);
    FoldReflectsLast(local, clientId);
    TagsSurvive(LocalRow(local, clientId).value.row, RemoteRow(remote).value);
  }

  lemma FirstIsKept(incoming: Log, k: RowKey, first: nat, origin: string)
    requires FirstCounts(incoming, None, k, first)
    ensures Counted(incoming, None, k) != []
    ensures RemoteRow(Counted(incoming, None, k)).value.tags == incoming[first].clearTags
  {
    NoneCounts(incoming, None, k);
    var last := LastPlace(incoming, k, first);
    EndsCount(incoming, None, k, first, last);
    FirstStampIsKept(Counted(incoming, None, k), origin);
  }

  lemma {:induction false} LastPlace(incoming: Log, k: RowKey, i: nat) returns (last: nat)
    requires i < |incoming| && Counts(incoming[i], None, k)
    ensures LastCounts(incoming, None, k, last)
  {
    if Counts(Last(incoming), None, k) {
      last := |incoming| - 1;
    } else {
      last := LastPlace(Front(incoming), k, i);
      assert forall j :: 0 <= j < |incoming| - 1 ==> Front(incoming)[j] == incoming[j];
    }
  }

  /** The cleared tags of the fold, in terms of the log. */
  lemma ClearedHere(log: Log, since: Option<int>, k: RowKey, first: nat, origin: string)
    requires FirstCounts(log, since, k, first)
    requires Counted(log, since, k) != [] && Counted(log, since, k)[0] == log[first]
    ensures forall t ::
      t in LocalRow(Counted(log, since, k), origin).value.row.clearTags <==> Clears(log, since, k, first, t)
  {
    var counted := Counted(log, since, k);
    var n := Convergence.FirstStampEnd(counted);
    forall t
      ensures t in LocalRow(counted, origin).value.row.clearTags <==> Clears(log, since, k, first, t)
    {
      FoldClearsTags(counted, origin, n, t);
      ClearedPlaces(log, since, k, first, n, t);
    }
  }
}
