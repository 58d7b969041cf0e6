/** Merging an incoming batch into the local database, as in clients/typescript/src/satellite/process.ts. */
module Apply {
  import opened Types
  import opened Merge
  import opened Oplog
  import opened OplogFold
  import opened Database

  // ---- Merging ----

  /** An incoming row that was also written locally takes the later columns and the surviving tags. */
  function MergedRow(local: Option<LocalInfo>, localOrigin: string, remote: ShadowChanges,
    origin: string): ShadowChanges {
    match local
    case None => remote
    case Some(info) =>
      var tags := MergeOpTags(info.row, remote);
      ShadowChanges(
        if tags == [] then REMOVE else UPSERT,
        LastWriteWins(localOrigin, info.row.changes, origin, remote.changes),
        tags)
  }

  function MergedEntries(localOrigin: string, local: Log, origin: string, incoming: Log): ShadowTables {
    map k | k in FoldRemote(incoming) ::
      MergedRow(Get(FoldLocal(local, localOrigin), k), localOrigin, FoldRemote(incoming)[k], origin)
  }

  method MergeEntries(localOrigin: string, local: Log, origin: string, incoming: Log) returns (merged: ShadowTables)
    ensures merged == MergedEntries(localOrigin, local, origin, incoming)
  {
    var localChanges := LocalOperationsToTableChanges(local, localOrigin);
    var incomingChanges := RemoteOperationsToTableChanges(incoming);
    merged := incomingChanges;
    var keys := incomingChanges.Keys;
    while keys != {}
      invariant keys <= incomingChanges.Keys == merged.Keys
      invariant forall k :: k in merged ==>
                merged[k] == if k in keys then incomingChanges[k]
                             else MergedRow(Get(localChanges, k), localOrigin, incomingChanges[k], origin)
      decreases keys
    {
      var k :| k in keys;
      keys := keys - {k};
      if k in localChanges {
        var row := localChanges[k].row;
        var changes := MergeChangesLastWriteWins(localOrigin, row.changes, origin, merged[k].changes);
        var tags := MergeOpTags(row, merged[k]);
        var optype := if |tags| == 0 then REMOVE else UPSERT;
        merged := merged[k := ShadowChanges(optype, changes, tags)];
      }
    }
  }

  /** A row written on both sides is deleted exactly when its last local entry is a delete and every
      incoming tag was cleared by the local entries from the last one of the first stamp on; any
      other incoming tag survives.  A row written on one side only is that side's. */
  lemma AddWins(localOrigin: string, local: Log, origin: string, incoming: Log, k: RowKey, j: nat)
    requires RowLog(incoming, k) != []
    requires var log := RowLog(local, k); log != [] ==> j < |log| && IsLastOfFirstStamp(log, j)
    ensures var log, merged := RowLog(local, k), MergedEntries(localOrigin, local, origin, incoming);
      var tags := RowLog(incoming, k)[0].clearTags;
      k in merged &&
      if log == [] then merged[k] == RemoteRow(RowLog(incoming, k)).value
      else
        (merged[k].optype == REMOVE <==>
           Last(log).optype.DELETE? && forall t :: t in tags ==> ClearedFrom(log, j, t)) &&
        (forall t :: t in tags && !ClearedFrom(log, j, t) ==> t in merged[k].tags) &&
        (forall t :: t in merged[k].tags ==>
          TagOf(Last(log), localOrigin) == Some(t) || (t in tags && !ClearedFrom(log, j, t)))
  {
    FoldIsRowByRow(local, localOrigin, k);
    FoldIsRowByRow(incoming, localOrigin, k);
    var log := RowLog(local, k);
    FirstStampIsKept(RowLog(incoming, k), localOrigin);
    if log != [] {
      FoldReflectsLast(log, localOrigin);
      TagsSurvive(LocalRow(log, localOrigin).value.row, RemoteRow(RowLog(incoming, k)).value);
      forall t { FoldClearsTags(log, localOrigin, j, t); }
    }
  }

  // ---- Statements ----

  /** The two statements of one merged row. */
  function RowStatements(k: RowKey, row: ShadowChanges): seq<Statement> {
    if row.optype.REMOVE? then [DeleteRow(k), DeleteShadow(k)] else [UpsertRow(k, row.changes), PutShadow(k, row.tags)]
  }

  function AllRowStatements(keys: seq<RowKey>, merged: ShadowTables): seq<Statement>
    requires forall k :: k in keys ==> k in merged
  {
    if keys == [] then [] else AllRowStatements(Front(keys), merged) + RowStatements(Last(keys), merged[Last(keys)])
  }

  function FlagStatements(tables: seq<string>, on: bool): seq<Statement> {
    if tables == [] then [] else FlagStatements(Front(tables), on) + [SetFlag(Last(tables), on)]
  }

  function TablesOf(merged: ShadowTables): set<string> {
    set k | k in merged :: k.table
  }

  /** `s` lists the elements, each once. */
  ghost predicate Enumerates<T(!new)>(s: seq<T>, elements: set<T>) {
    (forall x :: x in s <==> x in elements) && forall i, j :: 0 <= i < j < |s| ==> s[i] != s[j]
  }

  // ---- The declared effect ----

  /** Every written cell of a key column holds the value in the key. */
  predicate Keyed(k: RowKey, changes: Changes) {
    forall c :: c in k.pk && c in changes ==> changes[c].value == k.pk[c]
  }

  /** What an upsert of a merged row asks for: some column, and all NOT NULL columns or key columns only. */
  predicate Storable(required: Required, k: RowKey, row: ShadowChanges) {
    row.optype.UPSERT? ==>
      row.changes != map[] && (Complete(required, k, row.changes) || OnlyKey(k, row.changes))
  }

  predicate AllStorable(required: Required, merged: ShadowTables) {
    forall k :: k in merged ==> Storable(required, k, merged[k])
  }

  predicate AllKeyed(merged: ShadowTables) {
    forall k :: k in merged ==> Keyed(k, merged[k].changes)
  }

  predicate KeyedTable(rows: Table) {
    forall k :: k in rows ==> forall c :: c in k.pk ==> c in rows[k] && rows[k][c] == k.pk[c]
  }

  /** What a merged row leaves of the row: nothing, the written columns over it, or the row as it was
      when an incomplete insert is ignored. */
  function RowUnder(required: Required, k: RowKey, row: Option<Row>, merged: ShadowChanges): Option<Row> {
    if merged.optype.UPSERT? && !Complete(required, k, merged.changes) then row
    else ApplyRow(row, merged.optype, merged.changes)
  }

  function RowAfter(required: Required, rows: Table, merged: ShadowTables, k: RowKey): Option<Row> {
    if k in merged then RowUnder(required, k, Get(rows, k), merged[k]) else Get(rows, k)
  }

  function TagsAfter(shadow: Shadow, merged: ShadowTables, k: RowKey): Option<seq<Tag>> {
    if k !in merged then Get(shadow, k) else if merged[k].optype.REMOVE? then None else Some(merged[k].tags)
  }

  function AppliedRows(required: Required, rows: Table, merged: ShadowTables): Table {
    map k | k in rows.Keys + merged.Keys && RowAfter(required, rows, merged, k).Some? ::
      RowAfter(required, rows, merged, k).value
  }

  function AppliedShadow(shadow: Shadow, merged: ShadowTables): Shadow {
    map k | k in shadow.Keys + merged.Keys && TagsAfter(shadow, merged, k).Some? :: TagsAfter(shadow, merged, k).value
  }

  lemma AppliedAt(required: Required, rows: Table, shadow: Shadow, merged: ShadowTables, k: RowKey)
    ensures Get(AppliedRows(required, rows, merged), k) == RowAfter(required, rows, merged, k)
    ensures Get(AppliedShadow(shadow, merged), k) == TagsAfter(shadow, merged, k)
  {
  }

  lemma SameMap<K(!new), V>(a: map<K, V>, b: map<K, V>)
    requires forall k :: Get(a, k) == Get(b, k)
    ensures a == b
  {
    assert forall k :: k in a <==> Get(a, k).Some?;
    assert forall k :: k in b <==> Get(b, k).Some?;
    forall k | k in a ensures a[k] == b[k] { assert Get(a, k) == Get(b, k); }
  }

  /** The database after a batch: merged rows and tags, the new position, the same oplog, and the
      triggers of the touched tables on. */
  function AppliedDb(db: Db, merged: ShadowTables, lsn: seq<Byte>): Db {
    db.(rows := AppliedRows(db.required, db.rows, merged),
        shadow := AppliedShadow(db.shadow, merged),
        triggers := map t | t in db.triggers :: t in TablesOf(merged) || db.triggers[t],
        lsn := lsn)
  }

  function Restrict(merged: ShadowTables, keys: seq<RowKey>): ShadowTables {
    map k | k in merged && k in keys :: merged[k]
  }

  predicate TriggersOff(db: Db, merged: ShadowTables) {
    forall k :: k in merged ==> !Logging(db, k.table)
  }

  /** The table with one more row written, or without it. */
  function WithRow(rows: Table, k: RowKey, row: Option<Row>): Table {
    match row
    case None => rows - {k}
    case Some(r) => rows[k := r]
  }

  /** With the triggers off a complete upsert leaves the written columns over the row and nothing else. */
  lemma UpsertApplies(db: Db, k: RowKey, changes: Changes)
    requires !Logging(db, k.table) && KeyedTable(db.rows) && Keyed(k, changes)
    requires changes != map[] && Complete(db.required, k, changes)
    ensures Upsert(db, k, changes) == Some(db.(rows := db.rows[k := RowOf(Get(db.rows, k)) + Values(changes)]))
  {
    assert forall c :: c in k.pk ==> c in Needed(db.required, k);
    assert Addressed(k, changes) == k;
    if k in db.rows {
      KeyColumnsStay(db.rows[k], k, changes);
      assert OnlyKey(k, changes) ==> db.rows[k := db.rows[k]] == db.rows;
    } else {
      assert map[] + Values(changes) == Values(changes);
    }
  }

  /** Writing the key columns of a row that has them already changes nothing. */
  lemma KeyColumnsStay(row: Row, k: RowKey, changes: Changes)
    requires Keyed(k, changes) && forall c :: c in k.pk ==> c in row && row[c] == k.pk[c]
    ensures row + NonKey(k, changes) == row + Values(changes)
    ensures OnlyKey(k, changes) ==> row + Values(changes) == row
  {
    assert forall c :: c in changes ==> (c in NonKey(k, changes) <==> c !in k.pk);
  }

  lemma DeleteStatements(db: Db, k: RowKey)
    requires !Logging(db, k.table)
    ensures RunInTransaction(db, [DeleteRow(k), DeleteShadow(k)]) ==
            Some(db.(rows := db.rows - {k}, shadow := db.shadow - {k}))
  {
    RunTwo(db, DeleteRow(k), DeleteShadow(k));
    assert k !in db.rows ==> db.rows - {k} == db.rows;
  }

  lemma WithSameRow(rows: Table, k: RowKey)
    ensures WithRow(rows, k, Get(rows, k)) == rows
  {
  }

  /** A storable upsert gives the row as declared, and is ignored where the row stays as it is. */
  lemma StorableApplies(db: Db, k: RowKey, row: ShadowChanges)
    requires !Logging(db, k.table) && KeyedTable(db.rows) && Keyed(k, row.changes)
    requires row.optype.UPSERT? && Storable(db.required, k, row)
    ensures Exec(db, UpsertRow(k, row.changes)) ==
            Some(db.(rows := WithRow(db.rows, k, RowUnder(db.required, k, Get(db.rows, k), row))))
  {
    if Complete(db.required, k, row.changes) {
      UpsertApplies(db, k, row.changes);
    } else {
      WithSameRow(db.rows, k);
    }
  }

  lemma RunAfter(db: Db, a: Statement, u: Db, b: Statement)
    requires Exec(db, a) == Some(u)
    ensures RunInTransaction(db, [a, b]) == Exec(u, b)
  {
    RunTwo(db, a, b);
  }

  lemma UpsertStatements(db: Db, k: RowKey, row: ShadowChanges)
    requires !Logging(db, k.table) && KeyedTable(db.rows) && Keyed(k, row.changes)
    requires row.optype.UPSERT? && Storable(db.required, k, row)
    ensures RunInTransaction(db, [UpsertRow(k, row.changes), PutShadow(k, row.tags)]) ==
            Some(db.(rows := WithRow(db.rows, k, RowUnder(db.required, k, Get(db.rows, k), row)),
                     shadow := db.shadow[k := row.tags]))
  {
    var u := db.(rows := WithRow(db.rows, k, RowUnder(db.required, k, Get(db.rows, k), row)));
    StorableApplies(db, k, row);
    RunAfter(db, UpsertRow(k, row.changes), u, PutShadow(k, row.tags));
  }

  /** With the triggers off one row's statements change that row and its tags and nothing else. */
  lemma RowStatementsApply(db: Db, k: RowKey, row: ShadowChanges)
    requires !Logging(db, k.table) && KeyedTable(db.rows) && Keyed(k, row.changes) && Storable(db.required, k, row)
    ensures RunInTransaction(db, RowStatements(k, row)) ==
            Some(db.(rows := AppliedRows(db.required, db.rows, map[k := row]),
                     shadow := AppliedShadow(db.shadow, map[k := row])))
  {
    OneApplies(db.required, db.rows, db.shadow, k, row);
    if row.optype.UPSERT? {
      UpsertStatements(db, k, row);
    } else {
      DeleteStatements(db, k);
    }
  }

  lemma OneApplies(required: Required, rows: Table, shadow: Shadow, k: RowKey, row: ShadowChanges)
    ensures AppliedRows(required, rows, map[k := row]) == WithRow(rows, k, RowUnder(required, k, Get(rows, k), row))
    ensures AppliedShadow(shadow, map[k := row]) == if row.optype.REMOVE? then shadow - {k} else shadow[k := row.tags]
  {
    var r := WithRow(rows, k, RowUnder(required, k, Get(rows, k), row));
    var t := if row.optype.REMOVE? then shadow - {k} else shadow[k := row.tags];
    forall q
      ensures Get(AppliedRows(required, rows, map[k := row]), q) == Get(r, q)
      ensures Get(AppliedShadow(shadow, map[k := row]), q) == Get(t, q)
    {
      AppliedAt(required, rows, shadow, map[k := row], q);
    }
    SameMap(AppliedRows(required, rows, map[k := row]), r);
    SameMap(AppliedShadow(shadow, map[k := row]), t);
  }

  lemma NothingApplies(required: Required, rows: Table, shadow: Shadow)
    ensures AppliedRows(required, rows, map[]) == rows && AppliedShadow(shadow, map[]) == shadow
  {
  }

  lemma RowsStep(required: Required, rows: Table, shadow: Shadow, before: ShadowTables, k: RowKey, row: ShadowChanges)
    requires k !in before
    ensures AppliedRows(required, AppliedRows(required, rows, before), map[k := row]) ==
            AppliedRows(required, rows, before[k := row])
    ensures AppliedShadow(AppliedShadow(shadow, before), map[k := row]) == AppliedShadow(shadow, before[k := row])
  {
    var r, t, all := AppliedRows(required, rows, before), AppliedShadow(shadow, before), before[k := row];
    forall q
      ensures Get(AppliedRows(required, r, map[k := row]), q) == Get(AppliedRows(required, rows, all), q)
      ensures Get(AppliedShadow(t, map[k := row]), q) == Get(AppliedShadow(shadow, all), q)
    {
      AppliedAt(required, rows, shadow, before, q);
      AppliedAt(required, rows, shadow, all, q);
      AppliedAt(required, r, t, map[k := row], q);
    }
    SameMap(AppliedRows(required, r, map[k := row]), AppliedRows(required, rows, all));
    SameMap(AppliedShadow(t, map[k := row]), AppliedShadow(shadow, all));
  }

  lemma AppliedRowsAreKeyed(required: Required, rows: Table, merged: ShadowTables)
    requires KeyedTable(rows) && AllKeyed(merged)
    ensures KeyedTable(AppliedRows(required, rows, merged))
  {
    var r := AppliedRows(required, rows, merged);
    forall k, c | k in r && c in k.pk
      ensures c in r[k] && r[k][c] == k.pk[c]
    {
      AppliedAt(required, rows, map[], merged, k);
      assert c in Needed(required, k);
    }
  }

  lemma RestrictGrows(merged: ShadowTables, front: seq<RowKey>, k: RowKey)
    requires k in merged && k !in front
    ensures Restrict(merged, front + [k]) == Restrict(merged, front)[k := merged[k]]
  {
  }

  function WithRows(db: Db, merged: ShadowTables): Db {
    db.(rows := AppliedRows(db.required, db.rows, merged), shadow := AppliedShadow(db.shadow, merged))
  }

  lemma NextRowApplies(db: Db, before: ShadowTables, k: RowKey, row: ShadowChanges)
    requires KeyedTable(db.rows) && AllKeyed(before) && k !in before
    requires !Logging(db, k.table) && Keyed(k, row.changes) && Storable(db.required, k, row)
    ensures RunInTransaction(WithRows(db, before), RowStatements(k, row)) == Some(WithRows(db, before[k := row]))
  {
    AppliedRowsAreKeyed(db.required, db.rows, before);
    RowStatementsApply(WithRows(db, before), k, row);
    RowsStep(db.required, db.rows, db.shadow, before, k, row);
  }

  lemma {:induction false} RowsApply(db: Db, keys: seq<RowKey>, merged: ShadowTables)
    requires forall k :: k in keys ==> k in merged
    requires forall i, j :: 0 <= i < j < |keys| ==> keys[i] != keys[j]
    requires AllKeyed(merged) && AllStorable(db.required, merged) && TriggersOff(db, merged) && KeyedTable(db.rows)
    ensures RunInTransaction(db, AllRowStatements(keys, merged)) == Some(WithRows(db, Restrict(merged, keys)))
  {
    if keys == [] {
      assert Restrict(merged, keys) == map[];
      NothingApplies(db.required, db.rows, db.shadow);
    } else {
      var k, front := Last(keys), Front(keys);
      assert keys == front + [k];
      RowsApply(db, front, merged);
      assert k !in front;
      RestrictGrows(merged, front, k);
      RunAppends(db, AllRowStatements(front, merged), RowStatements(k, merged[k]));
      NextRowApplies(db, Restrict(merged, front), k, merged[k]);
    }
  }

  function WithFlags(triggers: map<string, bool>, tables: seq<string>, on: bool): map<string, bool> {
    map t | t in triggers :: if t in tables then on else triggers[t]
  }

  lemma FlagStep(triggers: map<string, bool>, front: seq<string>, t: string, on: bool)
    ensures var before := WithFlags(triggers, front, on);
      (if t in before then before[t := on] else before) == WithFlags(triggers, front + [t], on)
  {
  }

  lemma {:induction false} FlagsApply(db: Db, tables: seq<string>, on: bool)
    ensures RunInTransaction(db, FlagStatements(tables, on)) ==
            Some(db.(triggers := WithFlags(db.triggers, tables, on)))
  {
    if tables == [] {
      assert WithFlags(db.triggers, tables, on) == db.triggers;
    } else {
      var front, t := Front(tables), Last(tables);
      FlagsApply(db, front, on);
      var before := db.(triggers := WithFlags(db.triggers, front, on));
      assert tables == front + [t];
      FlagStep(db.triggers, front, t, on);
    }
  }

  /** The statements of one incoming batch. */
  function BatchStatements(tables: seq<string>, keys: seq<RowKey>, merged: ShadowTables, lsn: seq<Byte>): seq<Statement>
    requires forall k :: k in keys ==> k in merged
  {
    FlagStatements(tables, false) + [SetLsn(lsn)] + AllRowStatements(keys, merged) + FlagStatements(tables, true)
  }

  /** Switching the touched tables off leaves no merged row logged, on leaves them as declared. */
  lemma FlagsCover(db: Db, tables: seq<string>, merged: ShadowTables, lsn: seq<Byte>)
    requires Enumerates(tables, TablesOf(merged))
    ensures TriggersOff(db.(triggers := WithFlags(db.triggers, tables, false), lsn := lsn), merged)
    ensures WithFlags(WithFlags(db.triggers, tables, false), tables, true) == AppliedDb(db, merged, lsn).triggers
  {
    forall k | k in merged ensures k.table in tables { assert k.table in TablesOf(merged); }
  }

  /** The beginning of a batch: the triggers of its tables are off and its position is stored. */
  lemma HeadApplies(db: Db, tables: seq<string>, lsn: seq<Byte>)
    ensures RunInTransaction(db, FlagStatements(tables, false) + [SetLsn(lsn)]) ==
            Some(db.(triggers := WithFlags(db.triggers, tables, false), lsn := lsn))
  {
    FlagsApply(db, tables, false);
    RunTwo(db.(triggers := WithFlags(db.triggers, tables, false)), SetLsn(lsn), SetLsn(lsn));
    RunAppends(db, FlagStatements(tables, false), [SetLsn(lsn)]);
  }

  lemma AllRowsApply(db: Db, keys: seq<RowKey>, merged: ShadowTables)
    requires Enumerates(keys, merged.Keys)
    requires AllKeyed(merged) && AllStorable(db.required, merged) && TriggersOff(db, merged) && KeyedTable(db.rows)
    ensures RunInTransaction(db, AllRowStatements(keys, merged)) == Some(WithRows(db, merged))
  {
    RowsApply(db, keys, merged);
    assert Restrict(merged, keys) == merged;
  }

  /** The end of a batch: the triggers of its tables are on again. */
  lemma TailApplies(db: Db, stmts: seq<Statement>, tables: seq<string>, u: Db)
    requires RunInTransaction(db, stmts) == Some(u)
    ensures RunInTransaction(db, stmts + FlagStatements(tables, true)) ==
            Some(u.(triggers := WithFlags(u.triggers, tables, true)))
  {
    FlagsApply(u, tables, true);
    RunAppends(db, stmts, FlagStatements(tables, true));
  }

  /** Whole effect of a batch, whatever the order in which its rows are visited: merged rows and
      tags are in place, all other rows, tags and the oplog are as they were, and the triggers of
      the touched tables are on. */
  lemma BatchEffect(db: Db, tables: seq<string>, keys: seq<RowKey>, merged: ShadowTables, lsn: seq<Byte>)
    requires Enumerates(keys, merged.Keys) && Enumerates(tables, TablesOf(merged))
    requires KeyedTable(db.rows) && AllKeyed(merged) && AllStorable(db.required, merged)
    ensures RunInTransaction(db, BatchStatements(tables, keys, merged, lsn)) == Some(AppliedDb(db, merged, lsn))
  {
    var head, rows := FlagStatements(tables, false) + [SetLsn(lsn)], AllRowStatements(keys, merged);
    var quiet := db.(triggers := WithFlags(db.triggers, tables, false), lsn := lsn);
    HeadApplies(db, tables, lsn);
    FlagsCover(db, tables, merged, lsn);
    AllRowsApply(quiet, keys, merged);
    RunAppends(db, head, rows);
    TailApplies(db, head + rows, tables, WithRows(quiet, merged));
  }

  // ---- When a batch goes through ----

  predicate Runs(required: Required, s: Statement) {
    s.UpsertRow? ==>
      s.changes != map[] && (Complete(required, s.target, s.changes) || OnlyKey(s.target, s.changes))
  }

  lemma ExecRuns(db: Db, s: Statement)
    ensures Exec(db, s).Some? <==> Runs(db.required, s)
    ensures Exec(db, s).Some? ==> Exec(db, s).value.required == db.required
  {
  }

  lemma {:induction false} TransactionRuns(db: Db, stmts: seq<Statement>)
    ensures RunInTransaction(db, stmts).Some? <==> forall s :: s in stmts ==> Runs(db.required, s)
    ensures RunInTransaction(db, stmts).Some? ==> RunInTransaction(db, stmts).value.required == db.required
  {
    if stmts != [] {
      TransactionRuns(db, Front(stmts));
      if RunInTransaction(db, Front(stmts)).Some? {
        ExecRuns(RunInTransaction(db, Front(stmts)).value, Last(stmts));
      }
      assert stmts == Front(stmts) + [Last(stmts)];
    }
  }

  lemma {:induction false} UpsertsOf(keys: seq<RowKey>, merged: ShadowTables, s: Statement)
    requires forall k :: k in keys ==> k in merged
    ensures s in AllRowStatements(keys, merged) && s.UpsertRow? <==>
            exists k :: k in keys && merged[k].optype.UPSERT? && s == UpsertRow(k, merged[k].changes)
  {
    if keys != [] {
      UpsertsOf(Front(keys), merged, s);
      assert keys == Front(keys) + [Last(keys)];
    }
  }

  lemma {:induction false} FlagsOnly(tables: seq<string>, on: bool, s: Statement)
    ensures s in FlagStatements(tables, on) ==> s.SetFlag?
  {
    if tables != [] {
      FlagsOnly(Front(tables), on, s);
    }
  }

  /** An upsert fails exactly when it writes nothing, or writes a column besides the key while a column of the
      key or another NOT NULL column is missing or null. */
  lemma UpsertFailsExactlyWhen(db: Db, k: RowKey, changes: Changes)
    ensures Upsert(db, k, changes).None? <==>
            changes == map[] ||
            ((exists c :: c in changes && c !in k.pk) &&
             exists c :: (c in k.pk || (k.table in db.required && c in db.required[k.table])) &&
               (c in changes ==> changes[c].value == Null))
  {
    assert forall c :: c in Needed(db.required, k) <==>
                       c in k.pk || (k.table in db.required && c in db.required[k.table]);
  }

  /** A batch is stored exactly when every row to be upserted writes some column, and writes all NOT
      NULL columns or nothing but key columns; otherwise nothing at all is stored. */
  lemma BatchSucceeds(db: Db, tables: seq<string>, keys: seq<RowKey>, merged: ShadowTables, lsn: seq<Byte>)
    requires Enumerates(keys, merged.Keys) && Enumerates(tables, TablesOf(merged))
    ensures RunInTransaction(db, BatchStatements(tables, keys, merged, lsn)).Some? <==> AllStorable(db.required, merged)
  {
    var stmts := BatchStatements(tables, keys, merged, lsn);
    TransactionRuns(db, stmts);
    forall s
      ensures s in stmts && s.UpsertRow? <==>
              exists k :: k in keys && merged[k].optype.UPSERT? && s == UpsertRow(k, merged[k].changes)
    {
      UpsertsOf(keys, merged, s);
      FlagsOnly(tables, false, s);
      FlagsOnly(tables, true, s);
    }
    forall k | k in merged && merged[k].optype.UPSERT?
      ensures UpsertRow(k, merged[k].changes) in stmts
    {
      assert k in keys;
    }
  }

  /** An update that another replica made of one column is not stored where the row was not written:
      what arrives as changed columns alone lacks the key. */
  lemma UpdateAloneIsNotStored(db: Db, k: RowKey, lsn: seq<Byte>)
    requires k == RowKey("t", map["id" := Number(1)])
    ensures var merged := map[k := ShadowChanges(UPSERT, map["p" := Cell(Number(7), 1)], [Tag("b", 1)])];
      Enumerates([k], merged.Keys) && Enumerates(["t"], TablesOf(merged)) &&
      RunInTransaction(db, BatchStatements(["t"], [k], merged, lsn)).None?
  {
    var changes: Changes := map["p" := Cell(Number(7), 1)];
    var merged := map[k := ShadowChanges(UPSERT, changes, [Tag("b", 1)])];
    assert k in merged && "t" in TablesOf(merged);
    BatchSucceeds(db, ["t"], [k], merged, lsn);
    assert "id" in Needed(db.required, k) && "id" !in changes;
    assert "p" in changes && "p" !in k.pk;
    assert !Storable(db.required, k, merged[k]);
  }

  // ---- What a batch leaves alone ----

  /** The same oplog and the same rules. */
  predicate SameLog(a: Db, b: Db) {
    a.oplog == b.oplog && a.lastRowid == b.lastRowid && a.required == b.required
  }

  lemma {:induction false} RowStatementsLogNothing(db: Db, keys: seq<RowKey>, merged: ShadowTables)
    requires (forall k :: k in keys ==> k in merged) && TriggersOff(db, merged)
    ensures var r := RunInTransaction(db, AllRowStatements(keys, merged));
      r.Some? ==> SameLog(r.value, db) && r.value.triggers == db.triggers && r.value.lsn == db.lsn
  {
    if keys != [] {
      var k := Last(keys);
      RowStatementsLogNothing(db, Front(keys), merged);
      var before := RunInTransaction(db, AllRowStatements(Front(keys), merged));
      if before.Some? {
        RunAppends(db, AllRowStatements(Front(keys), merged), RowStatements(k, merged[k]));
        OneRowLogsNothing(before.value, k, merged[k]);
      } else {
        FailureStays(db, AllRowStatements(Front(keys), merged), RowStatements(k, merged[k]));
      }
    }
  }

  lemma OneRowLogsNothing(db: Db, k: RowKey, row: ShadowChanges)
    requires !Logging(db, k.table)
    ensures var r := RunInTransaction(db, RowStatements(k, row));
      r.Some? ==> SameLog(r.value, db) && r.value.triggers == db.triggers && r.value.lsn == db.lsn
  {
    if row.optype.REMOVE? {
      DeleteStatements(db, k);
    } else {
      UpsertLogsNothing(db, k, row.changes);
      RunTwo(db, UpsertRow(k, row.changes), PutShadow(k, row.tags));
    }
  }

  lemma UpsertLogsNothing(db: Db, k: RowKey, changes: Changes)
    requires !Logging(db, k.table)
    ensures var r := Upsert(db, k, changes); r.Some? ==> r.value == db.(rows := r.value.rows)
  {
  }

  lemma {:induction false} FailureStays(db: Db, xs: seq<Statement>, ys: seq<Statement>)
    requires RunInTransaction(db, xs).None?
    ensures RunInTransaction(db, xs + ys).None?
  {
    if ys == [] {
      assert xs + ys == xs;
    } else {
      assert Front(xs + ys) == xs + Front(ys);
      FailureStays(db, xs, Front(ys));
    }
  }

  /** Every stored batch, whatever its rows, leaves the oplog alone and ends at the new position. */
  lemma BatchLogsNothing(db: Db, tables: seq<string>, keys: seq<RowKey>, merged: ShadowTables, lsn: seq<Byte>)
    requires Enumerates(keys, merged.Keys) && Enumerates(tables, TablesOf(merged))
    ensures var r := RunInTransaction(db, BatchStatements(tables, keys, merged, lsn));
      r.Some? ==> SameLog(r.value, db) && r.value.lsn == lsn
  {
    var off, rows, on := FlagStatements(tables, false), AllRowStatements(keys, merged), FlagStatements(tables, true);
    var quiet := db.(triggers := WithFlags(db.triggers, tables, false), lsn := lsn);
    FlagsApply(db, tables, false);
    RunTwo(db.(triggers := quiet.triggers), SetLsn(lsn), SetLsn(lsn));
    RunAppends(db, off, [SetLsn(lsn)]);
    FlagsCover(db, tables, merged, lsn);
    RowStatementsLogNothing(quiet, keys, merged);
    RunAppends(db, off + [SetLsn(lsn)], rows);
    if RunInTransaction(quiet, rows).Some? {
      FlagsApply(RunInTransaction(quiet, rows).value, tables, true);
      RunAppends(db, off + [SetLsn(lsn)] + rows, on);
    } else {
      FailureStays(db, off + [SetLsn(lsn)] + rows, on);
    }
  }

  /** The records of an entry agree with its key. */
  predicate KeyedEntry(e: OplogEntry) {
    forall c :: c in e.key.pk && c in RowOf(e.newRow) ==> RowOf(e.newRow)[c] == e.key.pk[c]
  }

  lemma {:induction false} FoldIsKeyed(ops: Log, origin: string)
    requires forall i :: 0 <= i < |ops| ==> KeyedEntry(ops[i])
    ensures forall k :: k in FoldLocal(ops, origin) ==> Keyed(k, FoldLocal(ops, origin)[k].row.changes)
    ensures AllKeyed(FoldRemote(ops))
  {
    if ops != [] {
      assert forall i :: 0 <= i < |ops| - 1 ==> Front(ops)[i] == ops[i];
      FoldIsKeyed(Front(ops), origin);
    }
  }

  /** Entries that agree with their keys merge to rows that do. */
  lemma MergedIsKeyed(localOrigin: string, local: Log, origin: string, incoming: Log)
    requires forall i :: 0 <= i < |local| ==> KeyedEntry(local[i])
    requires forall i :: 0 <= i < |incoming| ==> KeyedEntry(incoming[i])
    ensures AllKeyed(MergedEntries(localOrigin, local, origin, incoming))
  {
    FoldIsKeyed(local, localOrigin);
    FoldIsKeyed(incoming, origin);
    var merged := MergedEntries(localOrigin, local, origin, incoming);
    forall k | k in merged
      ensures Keyed(k, merged[k].changes)
    {
      assert Keyed(k, FoldRemote(incoming)[k].changes);
    }
  }
}
