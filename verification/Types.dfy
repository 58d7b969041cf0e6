/** Data shared by the satellite modules: rows, tags, oplog entries and transactions. */
module Types {

  datatype Option<+T> = None | Some(value: T)

  /** A value stored in SQLite.  Numbers are unbounded integers here. */
  datatype SqlValue = Null | Number(n: int) | Text(s: string)

  type Row = map<string, SqlValue>

  /** The tag `instanceId@milliseconds` that a write leaves on its row. */
  datatype Tag = Tag(instance: string, millis: int)

  /** The identity of a user row: its table and the values of its primary key columns. */
  datatype RowKey = RowKey(table: string, pk: Row)

  datatype OpType = INSERT | UPDATE | DELETE

  datatype ChangesOpType = UPSERT | REMOVE

  /** One row of the oplog table.  The timestamp is NULL until a snapshot stamps the entry. */
  datatype OplogEntry = OplogEntry(
    rowid: int,
    key: RowKey,
    optype: OpType,
    timestamp: Option<int>,
    newRow: Option<Row>,
    oldRow: Option<Row>,
    clearTags: seq<Tag>)
  {
    /** Milliseconds since the epoch; a NULL date reads as the epoch itself. */
    function Millis(): int {
      match timestamp
      case Some(ms) => ms
      case None => 0
    }
  }

  /** The latest known write of one column. */
  datatype Cell = Cell(value: SqlValue, timestamp: int)

  type Changes = map<string, Cell>

  /** All local entries of one row folded together. */
  datatype EntryChanges = EntryChanges(
    optype: ChangesOpType, changes: Changes, tag: Option<Tag>, clearTags: seq<Tag>)

  /** All incoming entries of one row folded together. */
  datatype ShadowChanges = ShadowChanges(
    optype: ChangesOpType, changes: Changes, tags: seq<Tag>)

  datatype Column = Column(name: string, ctype: string, primaryKey: bool)

  datatype Relation = Relation(id: nat, table: string, columns: seq<Column>)

  /** One operation of a transaction on the wire. */
  datatype Change = Change(
    optype: OpType, relation: Relation, record: Option<Row>, oldRecord: Option<Row>, tags: seq<Tag>)

  type Byte = b: int | 0 <= b < 256

  datatype Transaction = Transaction(
    commitTimestamp: int, lsn: seq<Byte>, changes: seq<Change>, origin: Option<string>)

  function RowOf(row: Option<Row>): Row {
    match row
    case Some(r) => r
    case None => map[]
  }
}
