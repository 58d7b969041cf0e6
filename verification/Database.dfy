/** The SQLite database of a satellite: user rows, shadow tags, oplog, trigger switches and the
    statements that the satellite runs on them. */
module Database {
  import opened Types
  import opened Oplog
  import opened OplogFold

  type Shadow = map<RowKey, seq<Tag>>

  /** For each table, the columns besides its key that are NOT NULL and have no default. */
  type Required = map<string, set<string>>

  datatype Db = Db(
    rows: Table,
    shadow: Shadow,
    oplog: Log,
    /** The highest rowid the oplog ever used. */
    lastRowid: int,
    /** For each table, whether its triggers log. */
    triggers: map<string, bool>,
    lsn: seq<Byte>,
    required: Required)

  datatype Statement =
    | SetFlag(table: string, on: bool)
    | SetLsn(lsn: seq<Byte>)
    | DeleteRow(key: RowKey)
    | UpsertRow(target: RowKey, changes: Changes)
    | DeleteShadow(owner: RowKey)
    | PutShadow(holder: RowKey, tags: seq<Tag>)

  predicate Logging(db: Db, table: string) {
    table in db.triggers && db.triggers[table]
  }

  /** What the triggers of a table do after a write. */
  function LogWrite(db: Db, key: RowKey, optype: OpType, newRow: Option<Row>, oldRow: Option<Row>): Db {
    if Logging(db, key.table)
    then db.(oplog := db.oplog + [OplogEntry(db.lastRowid + 1, key, optype, None, newRow, oldRow, [])],
             lastRowid := db.lastRowid + 1)
    else db
  }

  predicate OnlyKey(key: RowKey, changes: Changes) {
    forall c :: c in changes ==> c in key.pk
  }

  /** What an upsert updates when its row exists. */
  function NonKey(key: RowKey, changes: Changes): Row {
    map c | c in changes && c !in key.pk :: changes[c].value
  }

  /** The row that the inserted values name, provided they include all key columns. */
  function Addressed(key: RowKey, changes: Changes): RowKey
    requires key.pk.Keys <= changes.Keys
  {
    RowKey(key.table, map c | c in key.pk :: changes[c].value)
  }

  function Needed(required: Required, key: RowKey): set<string> {
    key.pk.Keys + if key.table in required then required[key.table] else {}
  }

  /** No NOT NULL column is left out or null. */
  predicate Complete(required: Required, key: RowKey, changes: Changes) {
    forall c :: c in Needed(required, key) ==> c in changes && changes[c].value != Null
  }

  /** INSERT ... ON CONFLICT DO UPDATE, or INSERT OR IGNORE when only key columns are written.  An
      insert without columns is not SQL.  NOT NULL is checked before a conflict is looked for: an
      incomplete row is ignored by the second form and an error in the first. */
  function Upsert(db: Db, key: RowKey, changes: Changes): Option<Db> {
    if changes == map[] then None
    else if !Complete(db.required, key, changes) then
      if OnlyKey(key, changes) then Some(db) else None
    else
      var k := Addressed(key, changes);
      if k !in db.rows then
        var row := Values(changes);
        Some(LogWrite(db.(rows := db.rows[k := row]), k, INSERT, Some(row), None))
      else if OnlyKey(key, changes) then Some(db)
      else
        var row := db.rows[k] + NonKey(key, changes);
        Some(LogWrite(db.(rows := db.rows[k := row]), k, UPDATE, Some(row), Some(db.rows[k])))
  }

  function Exec(db: Db, s: Statement): Option<Db> {
    match s
    case SetFlag(table, on) => Some(if table in db.triggers then db.(triggers := db.triggers[table := on]) else db)
    case SetLsn(lsn) => Some(db.(lsn := lsn))
    case DeleteRow(k) =>
      Some(if k in db.rows then LogWrite(db.(rows := db.rows - {k}), k, DELETE, None, Some(db.rows[k])) else db)
    case UpsertRow(k, changes) => Upsert(db, k, changes)
    case DeleteShadow(k) => Some(db.(shadow := db.shadow - {k}))
    case PutShadow(k, tags) => Some(db.(shadow := db.shadow[k := tags]))
  }

  function Then(db: Option<Db>, s: Statement): Option<Db> {
    match db
    case None => None
    case Some(d) => Exec(d, s)
  }

  /** All statements in order, or none. */
  function RunInTransaction(db: Db, stmts: seq<Statement>): Option<Db> {
    if stmts == [] then Some(db) else Then(RunInTransaction(db, Front(stmts)), Last(stmts))
  }

  lemma {:induction false} RunAppends(db: Db, xs: seq<Statement>, ys: seq<Statement>)
    ensures RunInTransaction(db, xs).Some? ==>
            RunInTransaction(db, xs + ys) == RunInTransaction(RunInTransaction(db, xs).value, ys)
  {
    if ys == [] {
      assert xs + ys == xs;
    } else {
      assert Front(xs + ys) == xs + Front(ys);
      RunAppends(db, xs, Front(ys));
    }
  }

  lemma RunTwo(db: Db, a: Statement, b: Statement)
    ensures RunInTransaction(db, [a]) == Exec(db, a)
    ensures RunInTransaction(db, [a, b]) == Then(Exec(db, a), b)
  {
    assert Front([a]) == [] && Front([a, b]) == [a];
  }

  // ---- Queries and updates of the oplog ----

  /** Stamped entries above `since` in rowid order; with a `stamp`, only those of that stamp. */
  function Select(oplog: Log, since: int, stamp: Option<int>): Log {
    if oplog == [] then []
    else
      var front, e := Select(Front(oplog), since, stamp), Last(oplog);
      if Selected(e, since, stamp) then front + [e] else front
  }

  predicate Selected(e: OplogEntry, since: int, stamp: Option<int>) {
    e.rowid > since && e.timestamp.Some? && (stamp.Some? ==> e.timestamp == stamp)
  }

  function StampEntry(e: OplogEntry, since: int, ts: int): OplogEntry {
    if e.timestamp.None? && e.rowid > since then e.(timestamp := Some(ts)) else e
  }

  function StampOplog(oplog: Log, since: int, ts: int): (r: Log)
    ensures |r| == |oplog| && forall i :: 0 <= i < |r| ==> r[i] == StampEntry(oplog[i], since, ts)
  {
    seq(|oplog|, i requires 0 <= i < |oplog| => StampEntry(oplog[i], since, ts))
  }

  /** The entry with the tags of the tagged entry of its rowid, if there is one. */
  function WithTags(e: OplogEntry, tagged: Log): OplogEntry {
    if tagged == [] then e
    else if Last(tagged).rowid == e.rowid then e.(clearTags := Last(tagged).clearTags)
    else WithTags(e, Front(tagged))
  }

  function WriteTags(oplog: Log, tagged: Log): (r: Log)
    ensures |r| == |oplog| && forall i :: 0 <= i < |r| ==> r[i] == WithTags(oplog[i], tagged)
  {
    seq(|oplog|, i requires 0 <= i < |oplog| => WithTags(oplog[i], tagged))
  }

  function WithoutStamp(oplog: Log, ts: int): Log {
    if oplog == [] then []
    else
      var front := WithoutStamp(Front(oplog), ts);
      if Last(oplog).timestamp == Some(ts) then front else front + [Last(oplog)]
  }
}
