/** The binary form of messages: base-128 varints, length-delimited fields, and fields of unknown
    numbers that are skipped (Protocol Buffers Encoding, sections "Base 128 Varints", "Message
    Structure" and "Length Types"). */
module Protobuf {
  import opened Types

  /** What a message descriptor says about a field number. */
  datatype Kind = Uint32 | Uint64 | Bool | Bytes | Message(fields: Descriptor)

  type Descriptor = map<nat, Kind>

  /** One field of a message on the wire. */
  datatype Item =
    | Scalar(num: nat, n: nat)
    | Chunk(num: nat, bytes: seq<Byte>)
    | Nested(num: nat, items: seq<Item>)
    | Fixed64(num: nat, eight: seq<Byte>)
    | Fixed32(num: nat, four: seq<Byte>)
    | Group(num: nat, members: seq<Item>)

  const TWO_32: nat := 0x1_0000_0000
  const TWO_64: nat := 0x1_0000_0000_0000_0000
  const MAX_VARINT: nat := 10

  // ---- Writing ----

  function Varint(n: nat): (r: seq<Byte>)
    ensures r != []
  {
    if n < 128 then [n] else [n % 128 + 128] + Varint(n / 128)
  }

  function WireType(x: Item): nat {
    match x
    case Scalar(_, _) => 0
    case Fixed64(_, _) => 1
    case Chunk(_, _) => 2
    case Nested(_, _) => 2
    case Group(_, _) => 3
    case Fixed32(_, _) => 5
  }

  function Delimited(bytes: seq<Byte>): seq<Byte> {
    Varint(|bytes|) + bytes
  }

  function Payload(x: Item): seq<Byte>
    decreases x, 0
  {
    match x
    case Scalar(_, n) => Varint(n)
    case Chunk(_, bytes) => Delimited(bytes)
    case Nested(_, items) => Delimited(Wire(items))
    case Fixed64(_, eight) => eight
    case Fixed32(_, four) => four
    case Group(num, members) => Wire(members) + Varint(num * 8 + 4)
  }

  function WireItem(x: Item): seq<Byte>
    decreases x, 1
  {
    Varint(x.num * 8 + WireType(x)) + Payload(x)
  }

  function Wire(items: seq<Item>): seq<Byte>
    decreases items, 0
  {
    if items == [] then [] else WireItem(items[0]) + Wire(items[1..])
  }

  // ---- Reading ----

  /** A value read and the position after it, or the error of a malformed input. */
  datatype Read<+T> = Malformed | Got(value: T, pos: nat)

  /** The varint at `pos`, of at most `left` bytes. */
  function ReadVarint(buf: seq<Byte>, pos: nat, left: nat): (r: Read<nat>)
    ensures r.Got? ==> pos < r.pos <= |buf|
    decreases left
  {
    if pos >= |buf| || left == 0 then Malformed
    else if buf[pos] < 128 then Got(buf[pos], pos + 1)
    else
      var high := ReadVarint(buf, pos + 1, left - 1);
      if high.Malformed? then Malformed else Got(buf[pos] - 128 + 128 * high.value, high.pos)
  }

  /** The low 32 bits of the varint at `pos`. */
  function ReadUint32(buf: seq<Byte>, pos: nat): (r: Read<nat>)
    ensures r.Got? ==> pos < r.pos <= |buf|
  {
    var r := ReadVarint(buf, pos, MAX_VARINT);
    if r.Malformed? then Malformed else Got(r.value % 0x1_0000_0000, r.pos)
  }

  function ReadUint64(buf: seq<Byte>, pos: nat): (r: Read<nat>)
    ensures r.Got? ==> pos < r.pos <= |buf|
  {
    var r := ReadVarint(buf, pos, MAX_VARINT);
    if r.Malformed? then Malformed else Got(r.value % 0x1_0000_0000_0000_0000, r.pos)
  }

  /** A length and that many bytes. */
  function ReadChunk(buf: seq<Byte>, pos: nat): (r: Read<seq<Byte>>)
    ensures r.Got? ==> pos < r.pos <= |buf|
  {
    var length := ReadUint32(buf, pos);
    if length.Malformed? || length.pos + length.value > |buf| then Malformed
    else Got(buf[length.pos..length.pos + length.value], length.pos + length.value)
  }

  /** Bytes up to and including the first one below 128. */
  function SkipVarint(buf: seq<Byte>, pos: nat): (r: Read<()>)
    ensures r.Got? ==> pos < r.pos <= |buf|
    decreases |buf| - pos
  {
    if pos >= |buf| then Malformed else if buf[pos] < 128 then Got((), pos + 1) else SkipVarint(buf, pos + 1)
  }

  function SkipBytes(buf: seq<Byte>, pos: nat, length: nat): Read<()> {
    if pos + length <= |buf| then Got((), pos + length) else Malformed
  }

  function SkipChunk(buf: seq<Byte>, pos: nat): Read<()> {
    var length := ReadUint32(buf, pos);
    if length.Malformed? then Malformed else SkipBytes(buf, length.pos, length.value)
  }

  /** Skips a field by its wire type alone. */
  function SkipType(buf: seq<Byte>, pos: nat, wireType: nat): (r: Read<()>)
    ensures r.Got? ==> pos <= r.pos <= |buf|
    decreases |buf| - pos, 1
  {
    if wireType == 0 then SkipVarint(buf, pos)
    else if wireType == 1 then SkipBytes(buf, pos, 8)
    else if wireType == 2 then SkipChunk(buf, pos)
    else if wireType == 3 then SkipGroup(buf, pos)
    else if wireType == 5 then SkipBytes(buf, pos, 4)
    else Malformed
  }

  /** Skips fields up to and including an end-of-group tag. */
  function SkipGroup(buf: seq<Byte>, pos: nat): (r: Read<()>)
    ensures r.Got? ==> pos <= r.pos <= |buf|
    decreases |buf| - pos, 0
  {
    var tag := ReadUint32(buf, pos);
    if tag.Malformed? then Malformed
    else if tag.value % 8 == 4 then Got((), tag.pos)
    else
      var skipped := SkipType(buf, tag.pos, tag.value % 8);
      if skipped.Malformed? then Malformed else SkipGroup(buf, skipped.pos)
  }

  function ReadBool(num: nat, r: Read<nat>): Read<Item> {
    if r.Malformed? then Malformed else Got(Scalar(num, if r.value == 0 then 0 else 1), r.pos)
  }

  function ReadScalar(num: nat, r: Read<nat>): Read<Item> {
    if r.Malformed? then Malformed else Got(Scalar(num, r.value), r.pos)
  }

  function ReadBytes(num: nat, r: Read<seq<Byte>>): Read<Item> {
    if r.Malformed? then Malformed else Got(Chunk(num, r.value), r.pos)
  }

  function ReadNested(num: nat, r: Read<seq<Item>>): Read<Item> {
    if r.Malformed? then Malformed else Got(Nested(num, r.value), r.pos)
  }

  /** Reads the payload of a field whose number is known; the wire type is not looked at. */
  function ReadKnown(kind: Kind, num: nat, buf: seq<Byte>, pos: nat): (r: Read<Item>)
    ensures r.Got? ==> pos < r.pos <= |buf|
    decreases |buf| - pos, 0
  {
    match kind
    case Uint32 => ReadScalar(num, ReadUint32(buf, pos))
    case Uint64 => ReadScalar(num, ReadUint64(buf, pos))
    case Bool => ReadBool(num, ReadUint32(buf, pos))
    case Bytes => ReadBytes(num, ReadChunk(buf, pos))
    case Message(fields) =>
      var length := ReadUint32(buf, pos);
      if length.Malformed? then Malformed
      else
        ReadNested(num, Decode(fields, buf, length.pos, length.pos + length.value))
  }

  function Prepend(x: Item, rest: Read<seq<Item>>): Read<seq<Item>> {
    if rest.Malformed? then Malformed else Got([x] + rest.value, rest.pos)
  }

  /** The known fields from `pos` up to `end`, and the position after the last field read. */
  function Decode(fields: Descriptor, buf: seq<Byte>, pos: nat, end: nat): (r: Read<seq<Item>>)
    requires pos <= |buf|
    ensures r.Got? ==> pos <= r.pos <= |buf| && end <= r.pos
    decreases |buf| - pos, 1
  {
    if pos >= end then Got([], pos)
    else
      var tag := ReadUint32(buf, pos);
      if tag.Malformed? then Malformed
      else if tag.value / 8 in fields then
        var x := ReadKnown(fields[tag.value / 8], tag.value / 8, buf, tag.pos);
        if x.Malformed? then Malformed else Prepend(x.value, Decode(fields, buf, x.pos, end))
      else
        var skipped := SkipType(buf, tag.pos, tag.value % 8);
        if skipped.Malformed? then Malformed else Decode(fields, buf, skipped.pos, end)
  }
}
