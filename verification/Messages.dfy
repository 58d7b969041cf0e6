/** The messages of the operation log and how they map to wire fields: defaults are left out and
    restored, optional fields keep their presence and repeated fields their order, as in
    clients/typescript/src/_generated/protocol/satellite.ts. */
module Messages {
  import opened Types
  import opened RowCodec
  import opened Protobuf
  import opened ProtobufRoundTrip

  datatype SatOpBegin = SatOpBegin(
    commitTimestamp: nat, transId: string, lsn: seq<Byte>, origin: Option<string>, isMigration: bool)

  datatype SatOpCommit = SatOpCommit(commitTimestamp: nat, transId: string, lsn: seq<Byte>)

  datatype SatOpInsert = SatOpInsert(relationId: nat, rowData: Option<SatOpRow>, tags: seq<Tag>)

  datatype SatOpUpdate = SatOpUpdate(
    relationId: nat, rowData: Option<SatOpRow>, oldRowData: Option<SatOpRow>, tags: seq<Tag>)

  datatype SatOpDelete = SatOpDelete(relationId: nat, oldRowData: Option<SatOpRow>, tags: seq<Tag>)

  datatype SatTransOp = SatTransOp(
    begin: Option<SatOpBegin>, commit: Option<SatOpCommit>, update: Option<SatOpUpdate>,
    insert: Option<SatOpInsert>, delete: Option<SatOpDelete>)

  datatype SatOpLog = SatOpLog(ops: seq<SatTransOp>)

  // ---- Descriptors ----

  const ROW: Descriptor := map[1 := Bytes, 2 := Bytes]
  const BEGIN: Descriptor := map[1 := Uint64, 2 := Bytes, 3 := Bytes, 4 := Bytes, 5 := Bool]
  const COMMIT: Descriptor := map[1 := Uint64, 2 := Bytes, 3 := Bytes]
  const INSERT_OP: Descriptor := map[1 := Uint32, 2 := Message(ROW), 3 := Bytes]
  const UPDATE_OP: Descriptor := map[1 := Uint32, 2 := Message(ROW), 3 := Message(ROW), 4 := Bytes]
  const DELETE_OP: Descriptor := map[1 := Uint32, 2 := Message(ROW), 3 := Bytes]
  const TRANS_OP: Descriptor :=
    map[1 := Message(BEGIN), 2 := Message(COMMIT), 3 := Message(UPDATE_OP), 4 := Message(INSERT_OP),
      5 := Message(DELETE_OP)]
  const OP_LOG: Descriptor := map[1 := Message(TRANS_OP)]

  // ---- Encoding: the fields written, in order ----

  function IfSet(num: nat, n: nat): seq<Item> {
    if n == 0 then [] else [Scalar(num, n)]
  }

  function IfText(codec: Codec, num: nat, s: string): seq<Item> {
    if s == "" then [] else [Chunk(num, codec.encode(s))]
  }

  function IfBytes(num: nat, bytes: seq<Byte>): seq<Item> {
    if bytes == [] then [] else [Chunk(num, bytes)]
  }

  function Chunks(num: nat, values: seq<seq<Byte>>): seq<Item> {
    if values == [] then [] else [Chunk(num, values[0])] + Chunks(num, values[1..])
  }

  function TagChunks(codec: Codec, num: nat, tags: seq<Tag>): seq<Item> {
    if tags == [] then [] else [Chunk(num, codec.encodeTag(tags[0]))] + TagChunks(codec, num, tags[1..])
  }

  function RowItems(m: SatOpRow): seq<Item> {
    IfBytes(1, m.nullsBitmask) + Chunks(2, m.values)
  }

  function IfRow(num: nat, row: Option<SatOpRow>): seq<Item> {
    if row.None? then [] else [Nested(num, RowItems(row.value))]
  }

  function BeginItems(codec: Codec, m: SatOpBegin): seq<Item> {
    IfSet(1, m.commitTimestamp) + (IfText(codec, 2, m.transId) + (IfBytes(3, m.lsn) +
    ((if m.origin.None? then [] else [Chunk(4, codec.encode(m.origin.value))]) +
      IfSet(5, if m.isMigration then 1 else 0))))
  }

  function CommitItems(codec: Codec, m: SatOpCommit): seq<Item> {
    IfSet(1, m.commitTimestamp) + (IfText(codec, 2, m.transId) + IfBytes(3, m.lsn))
  }

  function InsertItems(codec: Codec, m: SatOpInsert): seq<Item> {
    IfSet(1, m.relationId) + (IfRow(2, m.rowData) + TagChunks(codec, 3, m.tags))
  }

  function UpdateItems(codec: Codec, m: SatOpUpdate): seq<Item> {
    IfSet(1, m.relationId) + (IfRow(2, m.rowData) + (IfRow(3, m.oldRowData) + TagChunks(codec, 4, m.tags)))
  }

  function DeleteItems(codec: Codec, m: SatOpDelete): seq<Item> {
    IfSet(1, m.relationId) + (IfRow(2, m.oldRowData) + TagChunks(codec, 3, m.tags))
  }

  function BeginPart(codec: Codec, m: Option<SatOpBegin>): seq<Item> {
    if m.None? then [] else [Nested(1, BeginItems(codec, m.value))]
  }

  function CommitPart(codec: Codec, m: Option<SatOpCommit>): seq<Item> {
    if m.None? then [] else [Nested(2, CommitItems(codec, m.value))]
  }

  function UpdatePart(codec: Codec, m: Option<SatOpUpdate>): seq<Item> {
    if m.None? then [] else [Nested(3, UpdateItems(codec, m.value))]
  }

  function InsertPart(codec: Codec, m: Option<SatOpInsert>): seq<Item> {
    if m.None? then [] else [Nested(4, InsertItems(codec, m.value))]
  }

  function DeletePart(codec: Codec, m: Option<SatOpDelete>): seq<Item> {
    if m.None? then [] else [Nested(5, DeleteItems(codec, m.value))]
  }

  function OpItems(codec: Codec, m: SatTransOp): seq<Item> {
    BeginPart(codec, m.begin) + (CommitPart(codec, m.commit) + (UpdatePart(codec, m.update) +
    (InsertPart(codec, m.insert) + DeletePart(codec, m.delete))))
  }

  function OpsItems(codec: Codec, ops: seq<SatTransOp>): seq<Item> {
    if ops == [] then [] else [Nested(1, OpItems(codec, ops[0]))] + OpsItems(codec, ops[1..])
  }

  function OpLogItems(codec: Codec, m: SatOpLog): seq<Item> {
    OpsItems(codec, m.ops)
  }

  // ---- Decoding: each field read assigns or appends ----

  function Fold<M>(step: (M, Item) -> M, m: M, items: seq<Item>): M {
    if items == [] then m else Fold(step, step(m, items[0]), items[1..])
  }

  lemma {:induction false} FoldAppends<M>(step: (M, Item) -> M, m: M, xs: seq<Item>, ys: seq<Item>)
    ensures Fold(step, m, xs + ys) == Fold(step, Fold(step, m, xs), ys)
  {
    if xs == [] {
      assert xs + ys == ys;
    } else {
      assert (xs + ys)[1..] == xs[1..] + ys;
      FoldAppends(step, step(m, xs[0]), xs[1..], ys);
    }
  }

  lemma FoldOne<M>(step: (M, Item) -> M, m: M, x: Item)
    ensures Fold(step, m, [x]) == step(m, x)
  {
  }

  function NumberOf(x: Item): nat {
    if x.Scalar? then x.n else 0
  }

  function BytesOf(x: Item): seq<Byte> {
    if x.Chunk? then x.bytes else []
  }

  function ItemsOf(x: Item): seq<Item> {
    if x.Nested? then x.items else []
  }

  const NO_ROW := SatOpRow([], [])

  function RowStep(m: SatOpRow, x: Item): SatOpRow {
    if x.num == 1 then m.(nullsBitmask := BytesOf(x))
    else if x.num == 2 then m.(values := m.values + [BytesOf(x)])
    else m
  }

  function RowFrom(items: seq<Item>): SatOpRow {
    Fold(RowStep, NO_ROW, items)
  }

  function BeginStep(codec: Codec, m: SatOpBegin, x: Item): SatOpBegin {
    if x.num == 1 then m.(commitTimestamp := NumberOf(x))
    else if x.num == 2 then m.(transId := codec.decode(BytesOf(x)))
    else if x.num == 3 then m.(lsn := BytesOf(x))
    else if x.num == 4 then m.(origin := Some(codec.decode(BytesOf(x))))
    else if x.num == 5 then m.(isMigration := NumberOf(x) != 0)
    else m
  }

  function BeginFrom(codec: Codec, items: seq<Item>): SatOpBegin {
    Fold((m, x) => BeginStep(codec, m, x), SatOpBegin(0, "", [], None, false), items)
  }

  function CommitStep(codec: Codec, m: SatOpCommit, x: Item): SatOpCommit {
    if x.num == 1 then m.(commitTimestamp := NumberOf(x))
    else if x.num == 2 then m.(transId := codec.decode(BytesOf(x)))
    else if x.num == 3 then m.(lsn := BytesOf(x))
    else m
  }

  function CommitFrom(codec: Codec, items: seq<Item>): SatOpCommit {
    Fold((m, x) => CommitStep(codec, m, x), SatOpCommit(0, "", []), items)
  }

  function InsertStep(codec: Codec, m: SatOpInsert, x: Item): SatOpInsert {
    if x.num == 1 then m.(relationId := NumberOf(x))
    else if x.num == 2 then m.(rowData := Some(RowFrom(ItemsOf(x))))
    else if x.num == 3 then m.(tags := m.tags + [codec.decodeTag(BytesOf(x))])
    else m
  }

  function InsertFrom(codec: Codec, items: seq<Item>): SatOpInsert {
    Fold((m, x) => InsertStep(codec, m, x), SatOpInsert(0, None, []), items)
  }

  function UpdateStep(codec: Codec, m: SatOpUpdate, x: Item): SatOpUpdate {
    if x.num == 1 then m.(relationId := NumberOf(x))
    else if x.num == 2 then m.(rowData := Some(RowFrom(ItemsOf(x))))
    else if x.num == 3 then m.(oldRowData := Some(RowFrom(ItemsOf(x))))
    else if x.num == 4 then m.(tags := m.tags + [codec.decodeTag(BytesOf(x))])
    else m
  }

  function UpdateFrom(codec: Codec, items: seq<Item>): SatOpUpdate {
    Fold((m, x) => UpdateStep(codec, m, x), SatOpUpdate(0, None, None, []), items)
  }

  function DeleteStep(codec: Codec, m: SatOpDelete, x: Item): SatOpDelete {
    if x.num == 1 then m.(relationId := NumberOf(x))
    else if x.num == 2 then m.(oldRowData := Some(RowFrom(ItemsOf(x))))
    else if x.num == 3 then m.(tags := m.tags + [codec.decodeTag(BytesOf(x))])
    else m
  }

  function DeleteFrom(codec: Codec, items: seq<Item>): SatOpDelete {
    Fold((m, x) => DeleteStep(codec, m, x), SatOpDelete(0, None, []), items)
  }

  function OpStep(codec: Codec, m: SatTransOp, x: Item): SatTransOp {
    if x.num == 1 then m.(begin := Some(BeginFrom(codec, ItemsOf(x))))
    else if x.num == 2 then m.(commit := Some(CommitFrom(codec, ItemsOf(x))))
    else if x.num == 3 then m.(update := Some(UpdateFrom(codec, ItemsOf(x))))
    else if x.num == 4 then m.(insert := Some(InsertFrom(codec, ItemsOf(x))))
    else if x.num == 5 then m.(delete := Some(DeleteFrom(codec, ItemsOf(x))))
    else m
  }

  const NO_OP := SatTransOp(None, None, None, None, None)

  function OpFrom(codec: Codec, items: seq<Item>): SatTransOp {
    Fold((m, x) => OpStep(codec, m, x), NO_OP, items)
  }

  function OpsFrom(codec: Codec, items: seq<Item>): seq<SatTransOp> {
    if items == [] then []
    else if items[0].num == 1 then [OpFrom(codec, ItemsOf(items[0]))] + OpsFrom(codec, items[1..])
    else OpsFrom(codec, items[1..])
  }

  function OpLogFrom(codec: Codec, items: seq<Item>): SatOpLog {
    SatOpLog(OpsFrom(codec, items))
  }

  // ---- Each message comes back from its fields ----

  lemma {:induction false} ChunksFold(m: SatOpRow, values: seq<seq<Byte>>)
    ensures Fold(RowStep, m, Chunks(2, values)) == m.(values := m.values + values)
    decreases |values|
  {
    if values == [] {
      assert m.values + values == m.values;
    } else {
      ChunksFold(RowStep(m, Chunk(2, values[0])), values[1..]);
      assert m.values + [values[0]] + values[1..] == m.values + values;
      assert Chunks(2, values)[1..] == Chunks(2, values[1..]);
    }
  }

  lemma RowComesBack(m: SatOpRow)
    ensures RowFrom(RowItems(m)) == m
  {
    FoldAppends(RowStep, NO_ROW, IfBytes(1, m.nullsBitmask), Chunks(2, m.values));
    ChunksFold(NO_ROW.(nullsBitmask := m.nullsBitmask), m.values);
  }

  lemma BeginHeadFold(codec: Codec, m: SatOpBegin)
    requires Invertible(codec)
    ensures Fold((m, x) => BeginStep(codec, m, x), SatOpBegin(0, "", [], None, false),
              IfSet(1, m.commitTimestamp) + (IfText(codec, 2, m.transId) + IfBytes(3, m.lsn))) ==
            m.(origin := None, isMigration := false)
  {
    var step := (m, x) => BeginStep(codec, m, x);
    var a, b, c := IfSet(1, m.commitTimestamp), IfText(codec, 2, m.transId), IfBytes(3, m.lsn);
    var m0 := SatOpBegin(0, "", [], None, false);
    var m1 := m0.(commitTimestamp := m.commitTimestamp);
    var m2 := m1.(transId := m.transId);
    FoldAppends(step, m0, a, b + c);
    FoldAppends(step, m1, b, c);
    assert Fold(step, m0, a) == m1 && Fold(step, m1, b) == m2;
  }

  lemma BeginComesBack(codec: Codec, m: SatOpBegin)
    requires Invertible(codec)
    ensures BeginFrom(codec, BeginItems(codec, m)) == m
  {
    var step := (m, x) => BeginStep(codec, m, x);
    var head := IfSet(1, m.commitTimestamp) + (IfText(codec, 2, m.transId) + IfBytes(3, m.lsn));
    var d := if m.origin.None? then [] else [Chunk(4, codec.encode(m.origin.value))];
    var e := IfSet(5, if m.isMigration then 1 else 0);
    BeginHeadFold(codec, m);
    BeginTailFold(codec, m, d, e);
    assert BeginItems(codec, m) == head + (d + e);
    FoldAppends(step, SatOpBegin(0, "", [], None, false), head, d + e);
  }

  lemma BeginTailFold(codec: Codec, m: SatOpBegin, d: seq<Item>, e: seq<Item>)
    requires Invertible(codec) && e == IfSet(5, if m.isMigration then 1 else 0)
    requires d == if m.origin.None? then [] else [Chunk(4, codec.encode(m.origin.value))]
    ensures Fold((m, x) => BeginStep(codec, m, x), m.(origin := None, isMigration := false), d + e) == m
  {
    var step := (m, x) => BeginStep(codec, m, x);
    var m3 := m.(origin := None, isMigration := false);
    FoldAppends(step, m3, d, e);
    assert Fold(step, m3, d) == m3.(origin := m.origin);
  }

  lemma CommitComesBack(codec: Codec, m: SatOpCommit)
    requires Invertible(codec)
    ensures CommitFrom(codec, CommitItems(codec, m)) == m
  {
    var step := (m, x) => CommitStep(codec, m, x);
    var a, b, c := IfSet(1, m.commitTimestamp), IfText(codec, 2, m.transId), IfBytes(3, m.lsn);
    var m0 := SatOpCommit(0, "", []);
    var m1 := m0.(commitTimestamp := m.commitTimestamp);
    var m2 := m1.(transId := m.transId);
    FoldAppends(step, m0, a, b + c);
    FoldAppends(step, m1, b, c);
    assert Fold(step, m0, a) == m1 && Fold(step, m1, b) == m2 && Fold(step, m2, c) == m;
  }

  lemma {:induction false} InsertTagsFold(codec: Codec, m: SatOpInsert, tags: seq<Tag>)
    requires Invertible(codec)
    ensures Fold((m, x) => InsertStep(codec, m, x), m, TagChunks(codec, 3, tags)) == m.(tags := m.tags + tags)
    decreases |tags|
  {
    if tags == [] {
      assert m.tags + tags == m.tags;
    } else {
      InsertTagsFold(codec, InsertStep(codec, m, Chunk(3, codec.encodeTag(tags[0]))), tags[1..]);
      assert m.tags + [tags[0]] + tags[1..] == m.tags + tags;
      assert TagChunks(codec, 3, tags)[1..] == TagChunks(codec, 3, tags[1..]);
    }
  }

  lemma InsertComesBack(codec: Codec, m: SatOpInsert)
    requires Invertible(codec)
    ensures InsertFrom(codec, InsertItems(codec, m)) == m
  {
    var step := (m, x) => InsertStep(codec, m, x);
    var a, b, c := IfSet(1, m.relationId), IfRow(2, m.rowData), TagChunks(codec, 3, m.tags);
    var m0 := SatOpInsert(0, None, []);
    var m1 := m0.(relationId := m.relationId);
    var m2 := m1.(rowData := m.rowData);
    FoldAppends(step, m0, a, b + c);
    FoldAppends(step, m1, b, c);
    if m.rowData.Some? { RowComesBack(m.rowData.value); }
    assert Fold(step, m0, a) == m1 && Fold(step, m1, b) == m2;
    InsertTagsFold(codec, m2, m.tags);
  }

  lemma {:induction false} UpdateTagsFold(codec: Codec, m: SatOpUpdate, tags: seq<Tag>)
    requires Invertible(codec)
    ensures Fold((m, x) => UpdateStep(codec, m, x), m, TagChunks(codec, 4, tags)) == m.(tags := m.tags + tags)
    decreases |tags|
  {
    if tags == [] {
      assert m.tags + tags == m.tags;
    } else {
      UpdateTagsFold(codec, UpdateStep(codec, m, Chunk(4, codec.encodeTag(tags[0]))), tags[1..]);
      assert m.tags + [tags[0]] + tags[1..] == m.tags + tags;
      assert TagChunks(codec, 4, tags)[1..] == TagChunks(codec, 4, tags[1..]);
    }
  }

  lemma UpdateComesBack(codec: Codec, m: SatOpUpdate)
    requires Invertible(codec)
    ensures UpdateFrom(codec, UpdateItems(codec, m)) == m
  {
    var step := (m, x) => UpdateStep(codec, m, x);
    var a, b, c, d := IfSet(1, m.relationId), IfRow(2, m.rowData), IfRow(3, m.oldRowData), TagChunks(codec, 4, m.tags);
    var m0 := SatOpUpdate(0, None, None, []);
    var m1 := m0.(relationId := m.relationId);
    var m2 := m1.(rowData := m.rowData);
    var m3 := m2.(oldRowData := m.oldRowData);
    FoldAppends(step, m0, a, b + (c + d));
    FoldAppends(step, m1, b, c + d);
    FoldAppends(step, m2, c, d);
    if m.rowData.Some? { RowComesBack(m.rowData.value); }
    if m.oldRowData.Some? { RowComesBack(m.oldRowData.value); }
    assert Fold(step, m0, a) == m1 && Fold(step, m1, b) == m2 && Fold(step, m2, c) == m3;
    UpdateTagsFold(codec, m3, m.tags);
  }

  lemma {:induction false} DeleteTagsFold(codec: Codec, m: SatOpDelete, tags: seq<Tag>)
    requires Invertible(codec)
    ensures Fold((m, x) => DeleteStep(codec, m, x), m, TagChunks(codec, 3, tags)) == m.(tags := m.tags + tags)
    decreases |tags|
  {
    if tags == [] {
      assert m.tags + tags == m.tags;
    } else {
      DeleteTagsFold(codec, DeleteStep(codec, m, Chunk(3, codec.encodeTag(tags[0]))), tags[1..]);
      assert m.tags + [tags[0]] + tags[1..] == m.tags + tags;
      assert TagChunks(codec, 3, tags)[1..] == TagChunks(codec, 3, tags[1..]);
    }
  }

  lemma DeleteComesBack(codec: Codec, m: SatOpDelete)
    requires Invertible(codec)
    ensures DeleteFrom(codec, DeleteItems(codec, m)) == m
  {
    var step := (m, x) => DeleteStep(codec, m, x);
    var a, b, c := IfSet(1, m.relationId), IfRow(2, m.oldRowData), TagChunks(codec, 3, m.tags);
    var m0 := SatOpDelete(0, None, []);
    var m1 := m0.(relationId := m.relationId);
    var m2 := m1.(oldRowData := m.oldRowData);
    FoldAppends(step, m0, a, b + c);
    FoldAppends(step, m1, b, c);
    if m.oldRowData.Some? { RowComesBack(m.oldRowData.value); }
    assert Fold(step, m0, a) == m1 && Fold(step, m1, b) == m2;
    DeleteTagsFold(codec, m2, m.tags);
  }

  lemma BeginPartFold(codec: Codec, m: SatTransOp, v: Option<SatOpBegin>)
    requires Invertible(codec) && m.begin.None?
    ensures Fold((m, x) => OpStep(codec, m, x), m, BeginPart(codec, v)) == m.(begin := v)
  {
    if v.Some? {
      BeginComesBack(codec, v.value);
      FoldOne((m, x) => OpStep(codec, m, x), m, Nested(1, BeginItems(codec, v.value)));
    }
  }

  lemma CommitPartFold(codec: Codec, m: SatTransOp, v: Option<SatOpCommit>)
    requires Invertible(codec) && m.commit.None?
    ensures Fold((m, x) => OpStep(codec, m, x), m, CommitPart(codec, v)) == m.(commit := v)
  {
    if v.Some? {
      CommitComesBack(codec, v.value);
      FoldOne((m, x) => OpStep(codec, m, x), m, Nested(2, CommitItems(codec, v.value)));
    }
  }

  lemma UpdatePartFold(codec: Codec, m: SatTransOp, v: Option<SatOpUpdate>)
    requires Invertible(codec) && m.update.None?
    ensures Fold((m, x) => OpStep(codec, m, x), m, UpdatePart(codec, v)) == m.(update := v)
  {
    if v.Some? {
      UpdateComesBack(codec, v.value);
      FoldOne((m, x) => OpStep(codec, m, x), m, Nested(3, UpdateItems(codec, v.value)));
    }
  }

  lemma InsertPartFold(codec: Codec, m: SatTransOp, v: Option<SatOpInsert>)
    requires Invertible(codec) && m.insert.None?
    ensures Fold((m, x) => OpStep(codec, m, x), m, InsertPart(codec, v)) == m.(insert := v)
  {
    if v.Some? {
      InsertComesBack(codec, v.value);
      FoldOne((m, x) => OpStep(codec, m, x), m, Nested(4, InsertItems(codec, v.value)));
    }
  }

  lemma DeletePartFold(codec: Codec, m: SatTransOp, v: Option<SatOpDelete>)
    requires Invertible(codec) && m.delete.None?
    ensures Fold((m, x) => OpStep(codec, m, x), m, DeletePart(codec, v)) == m.(delete := v)
  {
    if v.Some? {
      DeleteComesBack(codec, v.value);
      FoldOne((m, x) => OpStep(codec, m, x), m, Nested(5, DeleteItems(codec, v.value)));
    }
  }

  lemma OpComesBack(codec: Codec, m: SatTransOp)
    requires Invertible(codec)
    ensures OpFrom(codec, OpItems(codec, m)) == m
  {
    var step := (m, x) => OpStep(codec, m, x);
    var a, b, c := BeginPart(codec, m.begin), CommitPart(codec, m.commit), UpdatePart(codec, m.update);
    var d, e := InsertPart(codec, m.insert), DeletePart(codec, m.delete);
    var m1 := NO_OP.(begin := m.begin);
    var m2 := m1.(commit := m.commit);
    var m3 := m2.(update := m.update);
    var m4 := m3.(insert := m.insert);
    FoldAppends(step, NO_OP, a, b + (c + (d + e)));
    FoldAppends(step, m1, b, c + (d + e));
    FoldAppends(step, m2, c, d + e);
    FoldAppends(step, m3, d, e);
    BeginPartFold(codec, NO_OP, m.begin);
    CommitPartFold(codec, m1, m.commit);
    UpdatePartFold(codec, m2, m.update);
    InsertPartFold(codec, m3, m.insert);
    DeletePartFold(codec, m4, m.delete);
  }

  lemma OpsStep(codec: Codec, items: seq<Item>, rest: seq<Item>, op: SatTransOp)
    requires OpFrom(codec, items) == op
    ensures OpsFrom(codec, [Nested(1, items)] + rest) == [op] + OpsFrom(codec, rest)
  {
    assert ([Nested(1, items)] + rest)[1..] == rest;
  }

  lemma {:induction false} OpsComeBack(codec: Codec, ops: seq<SatTransOp>)
    requires Invertible(codec)
    ensures OpsFrom(codec, OpsItems(codec, ops)) == ops
  {
    if ops != [] {
      OpComesBack(codec, ops[0]);
      OpsComeBack(codec, ops[1..]);
      OpsStep(codec, OpItems(codec, ops[0]), OpsItems(codec, ops[1..]), ops[0]);
    }
  }

  lemma OpLogComesBack(codec: Codec, m: SatOpLog)
    requires Invertible(codec)
    ensures OpLogFrom(codec, OpLogItems(codec, m)) == m
  {
    OpsComeBack(codec, m.ops);
  }

  // ---- Bytes ----

  function EncodeOpLog(codec: Codec, m: SatOpLog): seq<Byte> {
    Wire(OpLogItems(codec, m))
  }

  /** None stands for the error of a malformed input. */
  function DecodeOpLog(codec: Codec, bytes: seq<Byte>): Option<SatOpLog> {
    var items := Decode(OP_LOG, bytes, 0, |bytes|);
    if items.Malformed? then None else Some(OpLogFrom(codec, items.value))
  }

  // ---- What fits the wire ----

  /** Commit times are 64-bit and relation numbers 32-bit. */
  predicate OpFits(m: SatTransOp) {
    (m.begin.Some? ==> m.begin.value.commitTimestamp < TWO_64) &&
    (m.commit.Some? ==> m.commit.value.commitTimestamp < TWO_64) &&
    (m.update.Some? ==> m.update.value.relationId < TWO_32) &&
    (m.insert.Some? ==> m.insert.value.relationId < TWO_32) &&
    (m.delete.Some? ==> m.delete.value.relationId < TWO_32)
  }

  predicate LogFits(m: SatOpLog) {
    forall i :: 0 <= i < |m.ops| ==> OpFits(m.ops[i])
  }

  // ---- The encoder writes known fields only, each of its kind ----

  predicate Described(fields: Descriptor, x: Item)
    decreases x
  {
    x.num in fields && x.num * 8 + 7 < TWO_32 &&
    match x
    case Scalar(_, n) =>
      (match fields[x.num] case Uint32 => n < TWO_32 case Uint64 => n < TWO_64 case Bool => n <= 1 case _ => false)
    case Chunk(_, _) => fields[x.num].Bytes?
    case Nested(_, items) =>
      fields[x.num].Message? && forall i :: 0 <= i < |items| ==> Described(fields[x.num].fields, items[i])
    case _ => false
  }

  predicate AllDescribed(fields: Descriptor, items: seq<Item>) {
    forall i :: 0 <= i < |items| ==> Described(fields, items[i])
  }

  lemma {:induction false} DescribedIsKnown(fields: Descriptor, items: seq<Item>)
    requires AllDescribed(fields, items)
    ensures Known(fields, items) == items
    decreases items
  {
    if items != [] {
      var x := items[0];
      assert Described(fields, x);
      DescribedIsKnown(fields, items[1..]);
      if x.Nested? {
        DescribedIsKnown(fields[x.num].fields, x.items);
      }
    }
  }

  /** Fields that the descriptor does not know, at any level, can be skipped by their wire type. */
  predicate Foreign(fields: Descriptor, x: Item)
    decreases x
  {
    x.num * 8 + 7 < TWO_32 &&
    if x.num !in fields then Skippable(x)
    else x.Nested? && fields[x.num].Message? ==>
      forall i :: 0 <= i < |x.items| ==> Foreign(fields[x.num].fields, x.items[i])
  }

  predicate AllForeign(fields: Descriptor, items: seq<Item>) {
    forall i :: 0 <= i < |items| ==> Foreign(fields, items[i])
  }

  lemma WireGrows(x: Item, rest: seq<Item>)
    ensures |Wire([x] + rest)| == |WireItem(x)| + |Wire(rest)|
    ensures x.Chunk? ==> |x.bytes| < |WireItem(x)|
    ensures x.Nested? ==> |Wire(x.items)| < |WireItem(x)|
  {
    assert ([x] + rest)[1..] == rest;
  }

  /** A field whose known part is described fits its wire type when its bytes are fewer than 2^32. */
  lemma {:induction false} ShortIsValid(fields: Descriptor, x: Item)
    requires Foreign(fields, x) && (x.num in fields ==> Described(fields, Seen(fields, x)))
    requires |WireItem(x)| < TWO_32
    ensures Valid(fields, x)
    decreases x, 0
  {
    WireGrows(x, []);
    if x.num in fields && x.Nested? {
      ShortAreValid(fields[x.num].fields, x.items);
    }
  }

  lemma {:induction false} ShortAreValid(fields: Descriptor, items: seq<Item>)
    requires AllForeign(fields, items) && AllDescribed(fields, Known(fields, items)) && |Wire(items)| < TWO_32
    ensures AllValid(fields, items)
    decreases items
  {
    if items != [] {
      var x, rest := items[0], items[1..];
      assert items == [x] + rest;
      WireGrows(x, rest);
      assert Foreign(fields, x);
      if x.num in fields {
        assert Known(fields, items) == [Seen(fields, x)] + Known(fields, rest);
        assert Described(fields, Known(fields, items)[0]);
        assert forall i :: 0 <= i < |Known(fields, rest)| ==> Known(fields, rest)[i] == Known(fields, items)[i + 1];
      }
      ShortIsValid(fields, x);
      ShortAreValid(fields, rest);
    }
  }

  lemma Both(fields: Descriptor, xs: seq<Item>, ys: seq<Item>)
    requires AllDescribed(fields, xs) && AllDescribed(fields, ys)
    ensures AllDescribed(fields, xs + ys)
  {
  }

  lemma {:induction false} ChunksDescribed(fields: Descriptor, num: nat, values: seq<seq<Byte>>)
    requires num in fields && num < 10 && fields[num].Bytes?
    ensures AllDescribed(fields, Chunks(num, values))
  {
    if values != [] { ChunksDescribed(fields, num, values[1..]); }
  }

  lemma {:induction false} TagsDescribed(codec: Codec, fields: Descriptor, num: nat, tags: seq<Tag>)
    requires num in fields && num < 10 && fields[num].Bytes?
    ensures AllDescribed(fields, TagChunks(codec, num, tags))
  {
    if tags != [] { TagsDescribed(codec, fields, num, tags[1..]); }
  }

  lemma RowDescribed(fields: Descriptor, num: nat, row: Option<SatOpRow>)
    requires num in fields && num < 10 && fields[num] == Message(ROW)
    ensures AllDescribed(fields, IfRow(num, row))
  {
    if row.Some? {
      ChunksDescribed(ROW, 2, row.value.values);
      Both(ROW, IfBytes(1, row.value.nullsBitmask), Chunks(2, row.value.values));
    }
  }

  lemma InsertDescribed(codec: Codec, m: SatOpInsert)
    requires m.relationId < TWO_32
    ensures AllDescribed(INSERT_OP, InsertItems(codec, m))
  {
    RowDescribed(INSERT_OP, 2, m.rowData);
    TagsDescribed(codec, INSERT_OP, 3, m.tags);
    Both(INSERT_OP, IfRow(2, m.rowData), TagChunks(codec, 3, m.tags));
  }

  lemma UpdateDescribed(codec: Codec, m: SatOpUpdate)
    requires m.relationId < TWO_32
    ensures AllDescribed(UPDATE_OP, UpdateItems(codec, m))
  {
    RowDescribed(UPDATE_OP, 2, m.rowData);
    RowDescribed(UPDATE_OP, 3, m.oldRowData);
    TagsDescribed(codec, UPDATE_OP, 4, m.tags);
    Both(UPDATE_OP, IfRow(3, m.oldRowData), TagChunks(codec, 4, m.tags));
    Both(UPDATE_OP, IfRow(2, m.rowData), IfRow(3, m.oldRowData) + TagChunks(codec, 4, m.tags));
  }

  lemma DeleteDescribed(codec: Codec, m: SatOpDelete)
    requires m.relationId < TWO_32
    ensures AllDescribed(DELETE_OP, DeleteItems(codec, m))
  {
    RowDescribed(DELETE_OP, 2, m.oldRowData);
    TagsDescribed(codec, DELETE_OP, 3, m.tags);
    Both(DELETE_OP, IfRow(2, m.oldRowData), TagChunks(codec, 3, m.tags));
  }

  lemma BeginDescribed(codec: Codec, m: SatOpBegin)
    requires m.commitTimestamp < TWO_64
    ensures AllDescribed(BEGIN, BeginItems(codec, m))
  {
    var a, b, c := IfSet(1, m.commitTimestamp), IfText(codec, 2, m.transId), IfBytes(3, m.lsn);
    var d := if m.origin.None? then [] else [Chunk(4, codec.encode(m.origin.value))];
    var e := IfSet(5, if m.isMigration then 1 else 0);
    Both(BEGIN, d, e);
    Both(BEGIN, b, c);
    Both(BEGIN, a, b + c);
    Both(BEGIN, a + (b + c), d + e);
    assert BeginItems(codec, m) == a + (b + c) + (d + e);
  }

  lemma CommitDescribed(codec: Codec, m: SatOpCommit)
    requires m.commitTimestamp < TWO_64
    ensures AllDescribed(COMMIT, CommitItems(codec, m))
  {
  }

  lemma PartDescribed(num: nat, fields: Descriptor, items: seq<Item>)
    requires num in TRANS_OP && num < 10 && TRANS_OP[num] == Message(fields) && AllDescribed(fields, items)
    ensures AllDescribed(TRANS_OP, [Nested(num, items)])
  {
  }

  lemma BeginPartDescribed(codec: Codec, m: Option<SatOpBegin>)
    requires m.Some? ==> m.value.commitTimestamp < TWO_64
    ensures AllDescribed(TRANS_OP, BeginPart(codec, m))
  {
    if m.Some? {
      BeginDescribed(codec, m.value);
      PartDescribed(1, BEGIN, BeginItems(codec, m.value));
    }
  }

  lemma CommitPartDescribed(codec: Codec, m: Option<SatOpCommit>)
    requires m.Some? ==> m.value.commitTimestamp < TWO_64
    ensures AllDescribed(TRANS_OP, CommitPart(codec, m))
  {
    if m.Some? {
      CommitDescribed(codec, m.value);
      PartDescribed(2, COMMIT, CommitItems(codec, m.value));
    }
  }

  lemma UpdatePartDescribed(codec: Codec, m: Option<SatOpUpdate>)
    requires m.Some? ==> m.value.relationId < TWO_32
    ensures AllDescribed(TRANS_OP, UpdatePart(codec, m))
  {
    if m.Some? {
      UpdateDescribed(codec, m.value);
      PartDescribed(3, UPDATE_OP, UpdateItems(codec, m.value));
    }
  }

  lemma InsertPartDescribed(codec: Codec, m: Option<SatOpInsert>)
    requires m.Some? ==> m.value.relationId < TWO_32
    ensures AllDescribed(TRANS_OP, InsertPart(codec, m))
  {
    if m.Some? {
      InsertDescribed(codec, m.value);
      PartDescribed(4, INSERT_OP, InsertItems(codec, m.value));
    }
  }

  lemma DeletePartDescribed(codec: Codec, m: Option<SatOpDelete>)
    requires m.Some? ==> m.value.relationId < TWO_32
    ensures AllDescribed(TRANS_OP, DeletePart(codec, m))
  {
    if m.Some? {
      DeleteDescribed(codec, m.value);
      PartDescribed(5, DELETE_OP, DeleteItems(codec, m.value));
    }
  }

  lemma OpDescribed(codec: Codec, m: SatTransOp)
    requires OpFits(m)
    ensures AllDescribed(TRANS_OP, OpItems(codec, m))
  {
    var a, b, c := BeginPart(codec, m.begin), CommitPart(codec, m.commit), UpdatePart(codec, m.update);
    var d, e := InsertPart(codec, m.insert), DeletePart(codec, m.delete);
    BeginPartDescribed(codec, m.begin);
    CommitPartDescribed(codec, m.commit);
    UpdatePartDescribed(codec, m.update);
    InsertPartDescribed(codec, m.insert);
    DeletePartDescribed(codec, m.delete);
    Both(TRANS_OP, d, e);
    Both(TRANS_OP, c, d + e);
    Both(TRANS_OP, b, c + (d + e));
    Both(TRANS_OP, a, b + (c + (d + e)));
  }

  lemma {:induction false} OpsDescribed(codec: Codec, ops: seq<SatTransOp>)
    requires forall i :: 0 <= i < |ops| ==> OpFits(ops[i])
    ensures AllDescribed(OP_LOG, OpsItems(codec, ops))
  {
    if ops != [] {
      OpDescribed(codec, ops[0]);
      OpsDescribed(codec, ops[1..]);
    }
  }

  // ---- Round trips ----

  /** Round trip of operation logs, also from bytes into which fields of unknown numbers were inserted
      at any level: the bytes are fewer than 2^32, and their known fields are those of the message. */
  lemma OpLogRoundTrip(codec: Codec, m: SatOpLog, items: seq<Item>)
    requires Invertible(codec) && LogFits(m) && |Wire(items)| < TWO_32
    requires AllForeign(OP_LOG, items) && Known(OP_LOG, items) == OpLogItems(codec, m)
    ensures DecodeOpLog(codec, Wire(items)) == Some(m)
    ensures Decode(OP_LOG, Wire(items), 0, |Wire(items)|) == Got(OpLogItems(codec, m), |Wire(items)|)
  {
    OpsDescribed(codec, m.ops);
    ShortAreValid(OP_LOG, items);
    var bytes := Wire(items);
    assert bytes[0..|bytes|] == bytes;
    DecodesWire(OP_LOG, bytes, 0, items, |bytes|);
    OpLogComesBack(codec, m);
  }

  lemma {:induction false} DescribedIsForeign(fields: Descriptor, x: Item)
    requires Described(fields, x)
    ensures Foreign(fields, x)
    decreases x
  {
    if x.Nested? {
      forall i | 0 <= i < |x.items| ensures Foreign(fields[x.num].fields, x.items[i]) {
        DescribedIsForeign(fields[x.num].fields, x.items[i]);
      }
    }
  }

  /** Decoding an encoded message gives it back, as long as its numbers fit and it is shorter than 2^32. */
  lemma EncodedOpLogRoundTrip(codec: Codec, m: SatOpLog)
    requires Invertible(codec) && LogFits(m) && |EncodeOpLog(codec, m)| < TWO_32
    ensures DecodeOpLog(codec, EncodeOpLog(codec, m)) == Some(m)
  {
    var items := OpLogItems(codec, m);
    OpsDescribed(codec, m.ops);
    DescribedIsKnown(OP_LOG, items);
    forall i | 0 <= i < |items| ensures Foreign(OP_LOG, items[i]) { DescribedIsForeign(OP_LOG, items[i]); }
    OpLogRoundTrip(codec, m, items);
  }

  // ---- The keys of the generated code ----

  /** The first number written for a field: its number and its wire type. */
  function Keys(items: seq<Item>): seq<nat> {
    seq(|items|, i requires 0 <= i < |items| => items[i].num * 8 + WireType(items[i]))
  }

  /** The key of a field that is written when it is set. */
  function If(present: bool, key: nat): seq<nat> {
    if present then [key] else []
  }

  lemma KeysOfBoth(a: seq<Item>, x: seq<nat>, b: seq<Item>, y: seq<nat>)
    requires Keys(a) == x && Keys(b) == y
    ensures Keys(a + b) == x + y
  {
  }

  lemma FieldKeys(codec: Codec, num: nat, n: nat, text: string, bytes: seq<Byte>, row: Option<SatOpRow>)
    ensures Keys(IfSet(num, n)) == If(n > 0, num * 8)
    ensures Keys(IfText(codec, num, text)) == If(text != "", num * 8 + 2)
    ensures Keys(IfBytes(num, bytes)) == If(bytes != [], num * 8 + 2)
    ensures Keys(IfRow(num, row)) == If(row.Some?, num * 8 + 2)
  {
  }

  lemma {:induction false} ChunkKeys(num: nat, values: seq<seq<Byte>>)
    ensures Keys(Chunks(num, values)) == seq(|values|, _ => num * 8 + 2)
  {
    if values != [] {
      ChunkKeys(num, values[1..]);
      KeysOfBoth([Chunk(num, values[0])], [num * 8 + 2], Chunks(num, values[1..]), seq(|values| - 1, _ => num * 8 + 2));
    }
  }

  lemma {:induction false} TagKeys(codec: Codec, num: nat, tags: seq<Tag>)
    ensures Keys(TagChunks(codec, num, tags)) == seq(|tags|, _ => num * 8 + 2)
  {
    if tags != [] {
      TagKeys(codec, num, tags[1..]);
      KeysOfBoth([Chunk(num, codec.encodeTag(tags[0]))], [num * 8 + 2], TagChunks(codec, num, tags[1..]),
                 seq(|tags| - 1, _ => num * 8 + 2));
    }
  }

  lemma RowKeys(m: SatOpRow)
    ensures Keys(RowItems(m)) == If(m.nullsBitmask != [], 10) + seq(|m.values|, _ => 18)
  {
    ChunkKeys(2, m.values);
    KeysOfBoth(IfBytes(1, m.nullsBitmask), If(m.nullsBitmask != [], 10), Chunks(2, m.values), seq(|m.values|, _ => 18));
  }

  lemma BeginKeys(codec: Codec, m: SatOpBegin)
    ensures Keys(BeginItems(codec, m)) ==
            If(m.commitTimestamp > 0, 8) + (If(m.transId != "", 18) + (If(m.lsn != [], 26) +
            (If(m.origin.Some?, 34) + If(m.isMigration, 40))))
  {
    var time, text, lsn := IfSet(1, m.commitTimestamp), IfText(codec, 2, m.transId), IfBytes(3, m.lsn);
    var origin := if m.origin.None? then [] else [Chunk(4, codec.encode(m.origin.value))];
    var flag := IfSet(5, if m.isMigration then 1 else 0);
    var (a, b, c, d, e) := (If(m.commitTimestamp > 0, 8), If(m.transId != "", 18), If(m.lsn != [], 26),
                            If(m.origin.Some?, 34), If(m.isMigration, 40));
    FieldKeys(codec, 1, m.commitTimestamp, "", [], None);
    FieldKeys(codec, 2, 0, m.transId, [], None);
    FieldKeys(codec, 3, 0, "", m.lsn, None);
    FieldKeys(codec, 5, if m.isMigration then 1 else 0, "", [], None);
    KeysOfBoth(origin, d, flag, e);
    KeysOfBoth(lsn, c, origin + flag, d + e);
    KeysOfBoth(text, b, lsn + (origin + flag), c + (d + e));
    KeysOfBoth(time, a, text + (lsn + (origin + flag)), b + (c + (d + e)));
  }

  lemma CommitKeys(codec: Codec, m: SatOpCommit)
    ensures Keys(CommitItems(codec, m)) ==
            If(m.commitTimestamp > 0, 8) + (If(m.transId != "", 18) + If(m.lsn != [], 26))
  {
    var time, text, lsn := IfSet(1, m.commitTimestamp), IfText(codec, 2, m.transId), IfBytes(3, m.lsn);
    var a, b, c := If(m.commitTimestamp > 0, 8), If(m.transId != "", 18), If(m.lsn != [], 26);
    FieldKeys(codec, 1, m.commitTimestamp, "", [], None);
    FieldKeys(codec, 2, 0, m.transId, [], None);
    FieldKeys(codec, 3, 0, "", m.lsn, None);
    KeysOfBoth(text, b, lsn, c);
    KeysOfBoth(time, a, text + lsn, b + c);
  }

  lemma InsertKeys(codec: Codec, m: SatOpInsert)
    ensures Keys(InsertItems(codec, m)) ==
            If(m.relationId > 0, 8) + (If(m.rowData.Some?, 18) + seq(|m.tags|, _ => 26))
  {
    var id, row, tags := IfSet(1, m.relationId), IfRow(2, m.rowData), TagChunks(codec, 3, m.tags);
    var a, b, c := If(m.relationId > 0, 8), If(m.rowData.Some?, 18), seq(|m.tags|, _ => 26);
    FieldKeys(codec, 1, m.relationId, "", [], None);
    FieldKeys(codec, 2, 0, "", [], m.rowData);
    TagKeys(codec, 3, m.tags);
    KeysOfBoth(row, b, tags, c);
    KeysOfBoth(id, a, row + tags, b + c);
  }

  lemma UpdateKeys(codec: Codec, m: SatOpUpdate)
    ensures Keys(UpdateItems(codec, m)) ==
            If(m.relationId > 0, 8) +
            (If(m.rowData.Some?, 18) + (If(m.oldRowData.Some?, 26) + seq(|m.tags|, _ => 34)))
  {
    var id, row, old', tags := IfSet(1, m.relationId), IfRow(2, m.rowData), IfRow(3, m.oldRowData),
                               TagChunks(codec, 4, m.tags);
    var a, b, c, d := If(m.relationId > 0, 8), If(m.rowData.Some?, 18), If(m.oldRowData.Some?, 26),
                      seq(|m.tags|, _ => 34);
    FieldKeys(codec, 1, m.relationId, "", [], None);
    FieldKeys(codec, 2, 0, "", [], m.rowData);
    FieldKeys(codec, 3, 0, "", [], m.oldRowData);
    TagKeys(codec, 4, m.tags);
    KeysOfBoth(old', c, tags, d);
    KeysOfBoth(row, b, old' + tags, c + d);
    KeysOfBoth(id, a, row + (old' + tags), b + (c + d));
  }

  lemma DeleteKeys(codec: Codec, m: SatOpDelete)
    ensures Keys(DeleteItems(codec, m)) ==
            If(m.relationId > 0, 8) + (If(m.oldRowData.Some?, 18) + seq(|m.tags|, _ => 26))
  {
    var id, row, tags := IfSet(1, m.relationId), IfRow(2, m.oldRowData), TagChunks(codec, 3, m.tags);
    var a, b, c := If(m.relationId > 0, 8), If(m.oldRowData.Some?, 18), seq(|m.tags|, _ => 26);
    FieldKeys(codec, 1, m.relationId, "", [], None);
    FieldKeys(codec, 2, 0, "", [], m.oldRowData);
    TagKeys(codec, 3, m.tags);
    KeysOfBoth(row, b, tags, c);
    KeysOfBoth(id, a, row + tags, b + c);
  }

  lemma PartKeys(codec: Codec, m: SatTransOp)
    ensures Keys(BeginPart(codec, m.begin)) == If(m.begin.Some?, 10)
    ensures Keys(CommitPart(codec, m.commit)) == If(m.commit.Some?, 18)
    ensures Keys(UpdatePart(codec, m.update)) == If(m.update.Some?, 26)
    ensures Keys(InsertPart(codec, m.insert)) == If(m.insert.Some?, 34)
    ensures Keys(DeletePart(codec, m.delete)) == If(m.delete.Some?, 42)
  {
  }

  lemma OpKeys(codec: Codec, m: SatTransOp)
    ensures Keys(OpItems(codec, m)) ==
            If(m.begin.Some?, 10) + (If(m.commit.Some?, 18) + (If(m.update.Some?, 26) +
            (If(m.insert.Some?, 34) + If(m.delete.Some?, 42))))
  {
    var begin, commit := BeginPart(codec, m.begin), CommitPart(codec, m.commit);
    var update, insert, delete := UpdatePart(codec, m.update), InsertPart(codec, m.insert), DeletePart(codec, m.delete);
    var (a, b, c, d, e) := (If(m.begin.Some?, 10), If(m.commit.Some?, 18), If(m.update.Some?, 26),
                            If(m.insert.Some?, 34), If(m.delete.Some?, 42));
    PartKeys(codec, m);
    KeysOfBoth(insert, d, delete, e);
    KeysOfBoth(update, c, insert + delete, d + e);
    KeysOfBoth(commit, b, update + (insert + delete), c + (d + e));
    KeysOfBoth(begin, a, commit + (update + (insert + delete)), b + (c + (d + e)));
  }

  lemma {:induction false} OpsKeys(codec: Codec, ops: seq<SatTransOp>)
    ensures Keys(OpsItems(codec, ops)) == seq(|ops|, _ => 10)
  {
    if ops != [] {
      OpsKeys(codec, ops[1..]);
      KeysOfBoth([Nested(1, OpItems(codec, ops[0]))], [10], OpsItems(codec, ops[1..]), seq(|ops| - 1, _ => 10));
    }
  }

  /** The keys of all that is written, as in the generated encoders: what has its default is left out, and a
      repeated field is written once for each of its values. */
  lemma KeysAsGenerated(codec: Codec, row: SatOpRow, log: SatOpLog, i: nat)
    requires i < |log.ops|
    ensures Keys(RowItems(row)) == If(row.nullsBitmask != [], 10) + seq(|row.values|, _ => 18)
    ensures Keys(OpLogItems(codec, log)) == seq(|log.ops|, _ => 10)
    ensures var op := log.ops[i];
      Keys(OpItems(codec, op)) ==
      If(op.begin.Some?, 10) + (If(op.commit.Some?, 18) + (If(op.update.Some?, 26) +
      (If(op.insert.Some?, 34) + If(op.delete.Some?, 42))))
    ensures log.ops[i].begin.Some? ==> var m := log.ops[i].begin.value;
      Keys(BeginItems(codec, m)) ==
      If(m.commitTimestamp > 0, 8) + (If(m.transId != "", 18) + (If(m.lsn != [], 26) +
      (If(m.origin.Some?, 34) + If(m.isMigration, 40))))
    ensures log.ops[i].commit.Some? ==> var m := log.ops[i].commit.value;
      Keys(CommitItems(codec, m)) ==
      If(m.commitTimestamp > 0, 8) + (If(m.transId != "", 18) + If(m.lsn != [], 26))
    ensures log.ops[i].insert.Some? ==> var m := log.ops[i].insert.value;
      Keys(InsertItems(codec, m)) ==
      If(m.relationId > 0, 8) + (If(m.rowData.Some?, 18) + seq(|m.tags|, _ => 26))
    ensures log.ops[i].update.Some? ==> var m := log.ops[i].update.value;
      Keys(UpdateItems(codec, m)) ==
      If(m.relationId > 0, 8) +
      (If(m.rowData.Some?, 18) + (If(m.oldRowData.Some?, 26) + seq(|m.tags|, _ => 34)))
    ensures log.ops[i].delete.Some? ==> var m := log.ops[i].delete.value;
      Keys(DeleteItems(codec, m)) ==
      If(m.relationId > 0, 8) + (If(m.oldRowData.Some?, 18) + seq(|m.tags|, _ => 26))
  {
    var op := log.ops[i];
    RowKeys(row);
    OpsKeys(codec, log.ops);
    OpKeys(codec, op);
    if op.begin.Some? { BeginKeys(codec, op.begin.value); }
    if op.commit.Some? { CommitKeys(codec, op.commit.value); }
    if op.insert.Some? { InsertKeys(codec, op.insert.value); }
    if op.update.Some? { UpdateKeys(codec, op.update.value); }
    if op.delete.Some? { DeleteKeys(codec, op.delete.value); }
  }

  // ---- Numbers that another writer made too large ----

  predicate Scalable(kind: Kind) {
    kind.Uint32? || kind.Uint64? || kind.Bool?
  }

  function Cut(kind: Kind, n: nat): nat
    requires Scalable(kind)
  {
    match kind
    case Uint32 => n % 0x1_0000_0000
    case Uint64 => n % 0x1_0000_0000_0000_0000
    case Bool => if n % 0x1_0000_0000 == 0 then 0 else 1
  }

  lemma ScalarIsCut(kind: Kind, num: nat, buf: seq<Byte>, pos: nat, n: nat)
    requires Scalable(kind) && At(buf, pos, Varint(n)) && n < PowerOf128(MAX_VARINT)
    ensures ReadKnown(kind, num, buf, pos) == Got(Scalar(num, Cut(kind, n)), pos + |Varint(n)|)
  {
    ScalarsAreCut(num, buf, pos, n);
  }

  lemma OneField(fields: Descriptor, num: nat, buf: seq<Byte>, x: Item)
    requires num in fields && buf != [] && ReadUint32(buf, 0) == Got(num * 8, 1)
    requires ReadKnown(fields[num], num, buf, 1) == Got(x, |buf|)
    ensures Decode(fields, buf, 0, |buf|) == Got([x], |buf|)
  {
    DecodeKnownStep(fields, buf, 0, |buf|, num * 8, 1, x, |buf|, []);
    assert [x] + [] == [x];
  }

  /** A message of one number. */
  lemma OneScalar(fields: Descriptor, num: nat, n: nat)
    requires num in fields && num < 16 && Scalable(fields[num]) && n < PowerOf128(MAX_VARINT)
    ensures var bytes := Varint(num * 8) + Varint(n);
      Decode(fields, bytes, 0, |bytes|) == Got([Scalar(num, Cut(fields[num], n))], |bytes|)
  {
    var bytes := Varint(num * 8) + Varint(n);
    assert |Varint(num * 8)| == 1 && bytes[1..] == Varint(n);
    ReadsWhole(bytes, 0, num * 8);
    ScalarIsCut(fields[num], num, bytes, 1, n);
    OneField(fields, num, bytes, Scalar(num, Cut(fields[num], n)));
  }

  /** Times are read as 64 bits, numbers of relations as 32, and the flag of a migration as true or false. */
  lemma NumbersAreCut(n: nat)
    requires n < PowerOf128(MAX_VARINT)
    ensures var time, bytes := n % 0x1_0000_0000_0000_0000, Varint(8) + Varint(n);
      Decode(BEGIN, bytes, 0, |bytes|) == Got([Scalar(1, time)], |bytes|) &&
      Decode(COMMIT, bytes, 0, |bytes|) == Got([Scalar(1, time)], |bytes|)
    ensures var id, bytes := n % 0x1_0000_0000, Varint(8) + Varint(n);
      Decode(INSERT_OP, bytes, 0, |bytes|) == Got([Scalar(1, id)], |bytes|) &&
      Decode(UPDATE_OP, bytes, 0, |bytes|) == Got([Scalar(1, id)], |bytes|) &&
      Decode(DELETE_OP, bytes, 0, |bytes|) == Got([Scalar(1, id)], |bytes|)
    ensures var flag, bytes := if n % 0x1_0000_0000 == 0 then 0 else 1, Varint(40) + Varint(n);
      Decode(BEGIN, bytes, 0, |bytes|) == Got([Scalar(5, flag)], |bytes|)
  {
    OneScalar(BEGIN, 1, n);
    OneScalar(COMMIT, 1, n);
    OneScalar(INSERT_OP, 1, n);
    OneScalar(UPDATE_OP, 1, n);
    OneScalar(DELETE_OP, 1, n);
    OneScalar(BEGIN, 5, n);
  }
}
