/** What the triggers write into the oplog when the application changes its tables: a log from which the
    tables can be replayed. */
module TriggerLog {
  import opened Types
  import opened Oplog
  import opened OplogFold
  import opened Database
  import opened Apply

  /** A delete, or an upsert of columns of the table, and of all of them where there is no such row. */
  predicate Applicable(schema: Schema, rows: Table, stmt: Statement) {
    match stmt
    case DeleteRow(k) => true
    case UpsertRow(k, changes) =>
      k.table in schema && Keyed(k, changes) && k.pk.Keys <= schema[k.table] && changes.Keys <= schema[k.table] &&
      (k !in rows ==> changes.Keys == schema[k.table])
    case _ => false
  }

  function KeyOf(stmt: Statement): RowKey
    requires stmt.DeleteRow? || stmt.UpsertRow?
  {
    if stmt.DeleteRow? then stmt.key else stmt.target
  }

  predicate FullRows(schema: Schema, rows: Table) {
    forall k :: k in rows ==> FullRow(schema, k, rows[k])
  }

  /** The new entry: pending, without tags, at the next rowid. */
  predicate IsNext(db: Db, k: RowKey, e: OplogEntry) {
    e.rowid == db.lastRowid + 1 && e.key == k && e.timestamp.None? && e.clearTags == []
  }

  /** `u` is `db`, or `db` with one row written and one entry that says what it was and what it is now. */
  predicate Writes(schema: Schema, db: Db, k: RowKey, u: Db) {
    u == db ||
    (u.oplog != [] && Front(u.oplog) == db.oplog && IsNext(db, k, Last(u.oplog)) &&
      Logged(schema, Get(db.rows, k), Last(u.oplog)) &&
      u == db.(rows := Replay1(db.rows, Last(u.oplog)), oplog := u.oplog, lastRowid := db.lastRowid + 1))
  }

  /** With the triggers of its table on, a statement that changes a row logs one entry, which says what the
      row was and what it has become; one that logs nothing changes nothing. */
  lemma WriteIsLogged(schema: Schema, db: Db, stmt: Statement)
    requires Applicable(schema, db.rows, stmt) && FullRows(schema, db.rows) && Logging(db, KeyOf(stmt).table)
    requires Exec(db, stmt).Some?
    ensures Writes(schema, db, KeyOf(stmt), Exec(db, stmt).value) && FullRows(schema, Exec(db, stmt).value.rows)
    ensures stmt.UpsertRow? && stmt.target in db.rows && OnlyKey(stmt.target, stmt.changes) ==>
            Exec(db, stmt).value == db
  {
    match stmt
    case DeleteRow(k) => DeleteIsLogged(schema, db, k);
    case UpsertRow(k, changes) => UpsertIsLogged(schema, db, k, changes);
  }

  lemma DeleteIsLogged(schema: Schema, db: Db, k: RowKey)
    requires Logging(db, k.table)
    ensures Writes(schema, db, k, Exec(db, DeleteRow(k)).value)
  {
    if k in db.rows {
      var u := Exec(db, DeleteRow(k)).value;
      assert Front(u.oplog) == db.oplog;
    }
  }

  lemma EntryWrites(schema: Schema, db: Db, k: RowKey, e: OplogEntry, u: Db)
    requires IsNext(db, k, e) && Logged(schema, Get(db.rows, k), e)
    requires u == db.(rows := Replay1(db.rows, e), oplog := db.oplog + [e], lastRowid := db.lastRowid + 1)
    ensures Writes(schema, db, k, u)
  {
    assert Front(db.oplog + [e]) == db.oplog;
  }

  lemma AddressedIsKey(schema: Schema, db: Db, k: RowKey, changes: Changes)
    requires Applicable(schema, db.rows, UpsertRow(k, changes)) && Complete(db.required, k, changes)
    ensures k.pk.Keys <= changes.Keys && Addressed(k, changes) == k
  {
    assert forall c :: c in k.pk ==> c in Needed(db.required, k);
  }

  lemma InsertIsLogged(schema: Schema, db: Db, k: RowKey, changes: Changes)
    requires Applicable(schema, db.rows, UpsertRow(k, changes)) && Logging(db, k.table) && k !in db.rows
    requires changes != map[] && Complete(db.required, k, changes)
    ensures FullRow(schema, k, Values(changes))
    ensures Upsert(db, k, changes) ==
            Some(db.(rows := db.rows[k := Values(changes)], lastRowid := db.lastRowid + 1, oplog := db.oplog +
                   [OplogEntry(db.lastRowid + 1, k, INSERT, None, Some(Values(changes)), None, [])]))
  {
    AddressedIsKey(schema, db, k, changes);
  }

  lemma UpdateIsLogged(schema: Schema, db: Db, k: RowKey, changes: Changes)
    requires Applicable(schema, db.rows, UpsertRow(k, changes)) && Logging(db, k.table) && k in db.rows
    requires FullRow(schema, k, db.rows[k]) && Complete(db.required, k, changes) && !OnlyKey(k, changes)
    ensures var row := db.rows[k] + NonKey(k, changes);
      FullRow(schema, k, row) &&
      Upsert(db, k, changes) ==
      Some(db.(rows := db.rows[k := row], lastRowid := db.lastRowid + 1, oplog := db.oplog +
             [OplogEntry(db.lastRowid + 1, k, UPDATE, None, Some(row), Some(db.rows[k]), [])]))
  {
    AddressedIsKey(schema, db, k, changes);
    var c :| c in changes && c !in k.pk;
    assert (db.rows[k] + NonKey(k, changes)).Keys == db.rows[k].Keys;
  }

  lemma KeysAloneChangeNothing(schema: Schema, db: Db, k: RowKey, changes: Changes)
    requires Applicable(schema, db.rows, UpsertRow(k, changes)) && k in db.rows && Complete(db.required, k, changes)
    ensures OnlyKey(k, changes) && Upsert(db, k, changes).Some? ==> Upsert(db, k, changes).value == db
  {
    AddressedIsKey(schema, db, k, changes);
  }

  lemma UpsertIsLogged(schema: Schema, db: Db, k: RowKey, changes: Changes)
    requires Applicable(schema, db.rows, UpsertRow(k, changes)) && FullRows(schema, db.rows) && Logging(db, k.table)
    requires Upsert(db, k, changes).Some?
    ensures Writes(schema, db, k, Upsert(db, k, changes).value)
    ensures k in db.rows && OnlyKey(k, changes) ==> Upsert(db, k, changes).value == db
  {
    if Complete(db.required, k, changes) {
      if k !in db.rows {
        InsertIsLogged(schema, db, k, changes);
        EntryWrites(schema, db, k, Last(Upsert(db, k, changes).value.oplog), Upsert(db, k, changes).value);
      } else {
        KeysAloneChangeNothing(schema, db, k, changes);
        if !OnlyKey(k, changes) {
          UpdateIsLogged(schema, db, k, changes);
          EntryWrites(schema, db, k, Last(Upsert(db, k, changes).value.oplog), Upsert(db, k, changes).value);
        }
      }
    }
  }

  /** What runs of the application keep: the oplog tells how the rows came about. */
  ghost predicate Tells(schema: Schema, base: Table, db: Db) {
    WellLogged(schema, base, db.oplog) && db.rows == Replay(base, db.oplog) && FullRows(schema, db.rows)
  }

  predicate AllApplicable(schema: Schema, db: Db, stmts: seq<Statement>) {
    stmts == [] ||
    (AllApplicable(schema, db, Front(stmts)) &&
      (RunInTransaction(db, Front(stmts)).Some? ==>
        Applicable(schema, RunInTransaction(db, Front(stmts)).value.rows, Last(stmts)) &&
        Logging(RunInTransaction(db, Front(stmts)).value, KeyOf(Last(stmts)).table)))
  }

  /** Whatever the application writes, its oplog can be replayed to its rows, entry by entry. */
  lemma {:induction false} WritesCanBeReplayed(schema: Schema, base: Table, db: Db, stmts: seq<Statement>)
    requires Tells(schema, base, db) && AllApplicable(schema, db, stmts) && RunInTransaction(db, stmts).Some?
    ensures Tells(schema, base, RunInTransaction(db, stmts).value)
  {
    if stmts != [] {
      WritesCanBeReplayed(schema, base, db, Front(stmts));
      var before := RunInTransaction(db, Front(stmts)).value;
      WriteIsLogged(schema, before, Last(stmts));
      var after := RunInTransaction(db, stmts).value;
      if after.oplog != before.oplog {
        assert Front(after.oplog) == before.oplog;
      }
    }
  }
}
