/** Folding oplog entries into one change per row, as in clients/typescript/src/satellite/oplog.ts. */
module Oplog {
  import opened Types
  import opened Sets

  /** The columns an entry really wrote: those whose new value differs from the old one. */
  function ChangedColumns(e: OplogEntry): Changes {
    var newRow, oldRow := RowOf(e.newRow), RowOf(e.oldRow);
    map c | c in newRow && (c !in oldRow || oldRow[c] != newRow[c]) :: Cell(newRow[c], e.Millis())
  }

  function KindOf(e: OplogEntry): ChangesOpType {
    if e.optype.DELETE? then REMOVE else UPSERT
  }

  function TagOf(e: OplogEntry, origin: string): Option<Tag> {
    if e.optype.DELETE? then None else Some(Tag(origin, e.Millis()))
  }

  method DiffRows(e: OplogEntry) returns (changes: Changes)
    ensures changes == ChangedColumns(e)
  {
    var newRow, oldRow := RowOf(e.newRow), RowOf(e.oldRow);
    changes := map[];
    var columns := newRow.Keys;
    while columns != {}
      invariant columns <= newRow.Keys
      invariant changes == map c | c in newRow.Keys - columns && (c !in oldRow || oldRow[c] != newRow[c])
                                :: Cell(newRow[c], e.Millis())
      decreases columns
    {
      var c :| c in columns;
      if c !in oldRow || oldRow[c] != newRow[c] {
        changes := changes[c := Cell(newRow[c], e.Millis())];
      }
      columns := columns - {c};
    }
  }

  function EntryChangesOf(e: OplogEntry, origin: string): EntryChanges {
    EntryChanges(KindOf(e), ChangedColumns(e), TagOf(e, origin), e.clearTags)
  }

  method LocalEntryToChanges(e: OplogEntry, origin: string) returns (r: EntryChanges)
    ensures r == EntryChangesOf(e, origin)
  {
    var changes := DiffRows(e);
    r := EntryChanges(if e.optype == DELETE then REMOVE else UPSERT, changes,
                      if e.optype == DELETE then None else Some(Tag(origin, e.Millis())), e.clearTags);
  }

  method RemoteEntryToChanges(e: OplogEntry) returns (r: ShadowChanges)
    ensures r == ShadowChanges(KindOf(e), ChangedColumns(e), e.clearTags)
  {
    var changes := DiffRows(e);
    r := ShadowChanges(if e.optype == DELETE then REMOVE else UPSERT, changes, e.clearTags);
  }

  /** A folded row together with the timestamp of its first entry. */
  datatype LocalInfo = LocalInfo(first: Option<int>, row: EntryChanges)

  type LocalTables = map<RowKey, LocalInfo>

  type ShadowTables = map<RowKey, ShadowChanges>

  /** The effect of one more entry on the fold of its row. */
  function AddLocal(info: Option<LocalInfo>, e: OplogEntry, origin: string): LocalInfo {
    match info
    case None => LocalInfo(e.timestamp, EntryChangesOf(e, origin))
    case Some(i) =>
      i.(row := EntryChanges(
           KindOf(e),
           i.row.changes + ChangedColumns(e),
           TagOf(e, origin),
           if i.first == e.timestamp then e.clearTags else Union(e.clearTags, i.row.clearTags)))
  }

  function AddRemote(info: Option<ShadowChanges>, e: OplogEntry): ShadowChanges {
    match info
    case None => ShadowChanges(KindOf(e), ChangedColumns(e), e.clearTags)
    case Some(r) => ShadowChanges(KindOf(e), r.changes + ChangedColumns(e), r.tags)
  }

  function Get<K, V>(m: map<K, V>, k: K): Option<V> {
    if k in m then Some(m[k]) else None
  }

  function FoldLocal(ops: seq<OplogEntry>, origin: string): LocalTables {
    if ops == [] then map[]
    else
      var e, acc := ops[|ops| - 1], FoldLocal(ops[..|ops| - 1], origin);
      acc[e.key := AddLocal(Get(acc, e.key), e, origin)]
  }

  function FoldRemote(ops: seq<OplogEntry>): ShadowTables {
    if ops == [] then map[]
    else
      var e, acc := ops[|ops| - 1], FoldRemote(ops[..|ops| - 1]);
      acc[e.key := AddRemote(Get(acc, e.key), e)]
  }

  /** Overwrites columns one by one, as the folds do on the object they hold. */
  method AssignColumns(existing: Changes, changes: Changes) returns (r: Changes)
    ensures r == existing + changes
  {
    r := existing;
    var columns := changes.Keys;
    while columns != {}
      invariant columns <= changes.Keys
      invariant r == existing + (map c | c in changes.Keys - columns :: changes[c])
      decreases columns
    {
      var c :| c in columns;
      r := r[c := changes[c]];
      columns := columns - {c};
    }
  }

  method LocalOperationsToTableChanges(operations: seq<OplogEntry>, origin: string) returns (acc: LocalTables)
    ensures acc == FoldLocal(operations, origin)
  {
    acc := map[];
    for i := 0 to |operations|
      invariant acc == FoldLocal(operations[..i], origin)
    {
      assert operations[..i + 1][..i] == operations[..i];
      var entry := operations[i];
      var entryChanges := LocalEntryToChanges(entry, origin);
      if entry.key !in acc {
        acc := acc[entry.key := LocalInfo(entry.timestamp, entryChanges)];
      } else {
        var LocalInfo(timestamp, existing) := acc[entry.key];
        existing := existing.(optype := entryChanges.optype);
        var changes := AssignColumns(existing.changes, entryChanges.changes);
        existing := existing.(changes := changes);
        if entryChanges.optype == REMOVE {
          existing := existing.(tag := None);
        } else {
          existing := existing.(tag := Some(Tag(origin, entry.Millis())));
        }
        if timestamp == entry.timestamp {
          existing := existing.(clearTags := entryChanges.clearTags);
        } else {
          existing := existing.(clearTags := Union(entryChanges.clearTags, existing.clearTags));
        }
        acc := acc[entry.key := LocalInfo(timestamp, existing)];
      }
    }
    assert operations[..|operations|] == operations;
  }

  method RemoteOperationsToTableChanges(operations: seq<OplogEntry>) returns (acc: ShadowTables)
    ensures acc == FoldRemote(operations)
  {
    acc := map[];
    for i := 0 to |operations|
      invariant acc == FoldRemote(operations[..i])
    {
      assert operations[..i + 1][..i] == operations[..i];
      var entry := operations[i];
      var entryChanges := RemoteEntryToChanges(entry);
      if entry.key !in acc {
        acc := acc[entry.key := entryChanges];
      } else {
        var existing := acc[entry.key].(optype := entryChanges.optype);
        var changes := AssignColumns(existing.changes, entryChanges.changes);
        acc := acc[entry.key := existing.(changes := changes)];
      }
    }
    assert operations[..|operations|] == operations;
  }
}
