/** The reader and the writer that the generated code drives: a position that moves over a buffer, and
    a buffer that grows, as in clients/typescript/src/_generated/protocol/satellite.ts. */
module WireReader {
  import opened Types
  import opened Protobuf

  /** `r` read from `pos` against what a method returned: the value and the new position, or failure. */
  ghost predicate Matches<T>(r: Read<T>, value: Option<T>, pos: nat) {
    if r.Malformed? then value.None? else value == Some(r.value) && pos == r.pos
  }

  function Join(front: seq<Item>, rest: Read<seq<Item>>): Read<seq<Item>> {
    if rest.Malformed? then Malformed else Got(front + rest.value, rest.pos)
  }

  class Reader {
    const buf: seq<Byte>
    var pos: nat

    constructor (buf: seq<Byte>)
      ensures this.buf == buf && pos == 0
    {
      this.buf := buf;
      pos := 0;
    }

    /** Adds seven bits per byte, least significant first, for at most ten bytes. */
    method Varint() returns (n: Option<nat>)
      modifies this
      ensures Matches(ReadVarint(buf, old(pos), MAX_VARINT), n, pos)
    {
      ghost var start := pos;
      var value: int, weight: int, left: nat := 0, 1, MAX_VARINT;
      WeighNothing(ReadVarint(buf, pos, left));
      while left > 0 && pos < |buf|
        invariant ReadVarint(buf, start, MAX_VARINT) == Weigh(value, weight, ReadVarint(buf, pos, left))
        decreases left
      {
        var b: int := buf[pos];
        WeighStep(buf, pos, left, value, weight);
        pos := pos + 1;
        if b < 128 {
          return Some(value + weight * b);
        }
        value, weight, left := value + weight * (b - 128), weight * 128, left - 1;
      }
      n := None;
    }

    method Uint32() returns (n: Option<nat>)
      modifies this
      ensures Matches(ReadUint32(buf, old(pos)), n, pos)
    {
      n := Varint();
      if n.Some? {
        n := Some(n.value % 0x1_0000_0000);
      }
    }

    method Uint64() returns (n: Option<nat>)
      modifies this
      ensures Matches(ReadUint64(buf, old(pos)), n, pos)
    {
      n := Varint();
      if n.Some? {
        n := Some(n.value % 0x1_0000_0000_0000_0000);
      }
    }

    method Chunk() returns (bytes: Option<seq<Byte>>)
      modifies this
      ensures Matches(ReadChunk(buf, old(pos)), bytes, pos)
    {
      var length := Uint32();
      if length.None? || pos + length.value > |buf| {
        return None;
      }
      bytes := Some(buf[pos..pos + length.value]);
      pos := pos + length.value;
    }

    method Skip(length: nat) returns (ok: Option<()>)
      modifies this
      ensures Matches(SkipBytes(buf, old(pos), length), ok, pos)
    {
      if pos + length > |buf| {
        return None;
      }
      pos := pos + length;
      ok := Some(());
    }

    method SkipOverVarint() returns (ok: Option<()>)
      modifies this
      ensures Matches(SkipVarint(buf, old(pos)), ok, pos)
    {
      while pos < |buf|
        invariant SkipVarint(buf, old(pos)) == SkipVarint(buf, pos)
        decreases |buf| - pos
      {
        var b := buf[pos];
        pos := pos + 1;
        if b < 128 {
          return Some(());
        }
      }
      ok := None;
    }

    method SkipField(wireType: nat) returns (ok: Option<()>)
      modifies this
      ensures Matches(SkipType(buf, old(pos), wireType), ok, pos)
      decreases |buf| - pos, 1
    {
      match wireType
      case 0 => ok := SkipOverVarint();
      case 1 => ok := Skip(8);
      case 2 =>
        var length := Uint32();
        if length.None? {
          return None;
        }
        ok := Skip(length.value);
      case 3 => ok := SkipMembers();
      case 5 => ok := Skip(4);
      case _ => ok := None;
    }

    method SkipMembers() returns (ok: Option<()>)
      modifies this
      ensures Matches(SkipGroup(buf, old(pos)), ok, pos)
      decreases |buf| - pos, 0
    {
      while true
        invariant old(pos) <= pos && SkipGroup(buf, old(pos)) == SkipGroup(buf, pos)
        decreases |buf| - pos
      {
        var tag := Uint32();
        if tag.None? {
          return None;
        }
        if tag.value % 8 == 4 {
          return Some(());
        }
        var skipped := SkipField(tag.value % 8);
        if skipped.None? {
          return None;
        }
      }
    }

    method Known(kind: Kind, num: nat) returns (x: Option<Item>)
      modifies this
      ensures Matches(ReadKnown(kind, num, buf, old(pos)), x, pos)
      decreases |buf| - pos, 0
    {
      match kind
      case Uint32 =>
        var n := Uint32();
        x := if n.None? then None else Some(Scalar(num, n.value));
      case Uint64 =>
        var n := Uint64();
        x := if n.None? then None else Some(Scalar(num, n.value));
      case Bool =>
        var n := Uint32();
        x := if n.None? then None else Some(Scalar(num, if n.value == 0 then 0 else 1));
      case Bytes =>
        var bytes := Chunk();
        x := if bytes.None? then None else Some(Item.Chunk(num, bytes.value));
      case Message(fields) =>
        var length := Uint32();
        if length.None? {
          return None;
        }
        var items := DecodeMessage(fields, length.value);
        x := if items.None? then None else Some(Nested(num, items.value));
    }

    /** Reads tags up to `pos + length`; unknown fields are skipped, known ones are collected. */
    method DecodeMessage(fields: Descriptor, length: nat) returns (message: Option<seq<Item>>)
      requires pos <= |buf|
      modifies this
      ensures Matches(Decode(fields, buf, old(pos), old(pos) + length), message, pos)
      decreases |buf| - pos, 1
    {
      var end := pos + length;
      var items: seq<Item> := [];
      JoinNothing(items, Decode(fields, buf, pos, end));
      while pos < end
        invariant old(pos) <= pos <= |buf|
        invariant Decode(fields, buf, old(pos), end) == Join(items, Decode(fields, buf, pos, end))
        decreases |buf| - pos
      {
        ghost var before, collected := pos, items;
        var tag := Uint32();
        if tag.None? {
          return None;
        }
        if tag.value / 8 in fields {
          var x := Known(fields[tag.value / 8], tag.value / 8);
          if x.None? {
            return None;
          }
          items := items + [x.value];
          JoinPrepend(collected, x.value, Decode(fields, buf, pos, end));
        } else {
          var skipped := SkipField(tag.value % 8);
          if skipped.None? {
            return None;
          }
        }
      }
      JoinNothing(items, Decode(fields, buf, pos, end));
      message := Some(items);
    }
  }

  function Weigh(value: int, weight: int, r: Read<nat>): Read<int> {
    if r.Malformed? then Malformed else Got(value + weight * r.value, r.pos)
  }

  lemma WeighNothing(r: Read<nat>)
    ensures Weigh(0, 1, r) == r
  {
  }

  lemma WeighStep(buf: seq<Byte>, pos: nat, left: nat, value: int, weight: int)
    requires left > 0 && pos < |buf|
    ensures Weigh(value, weight, ReadVarint(buf, pos, left)) ==
            if buf[pos] < 128 then Got(value + weight * buf[pos], pos + 1)
            else Weigh(value + weight * (buf[pos] - 128), weight * 128, ReadVarint(buf, pos + 1, left - 1))
  {
    var high := ReadVarint(buf, pos + 1, left - 1);
    if buf[pos] >= 128 && high.Got? {
      Distribute(weight, buf[pos] - 128, high.value);
    }
  }

  lemma Distribute(weight: int, low: int, high: int)
    ensures weight * (low + 128 * high) == weight * low + weight * 128 * high
  {
  }

  lemma JoinNothing(items: seq<Item>, rest: Read<seq<Item>>)
    ensures Join([], rest) == rest
    ensures rest.Got? && rest.value == [] ==> Join(items, rest) == Got(items, rest.pos)
  {
    if rest.Got? {
      assert [] + rest.value == rest.value && items + [] == items;
    }
  }

  lemma JoinPrepend(front: seq<Item>, x: Item, rest: Read<seq<Item>>)
    ensures Join(front, Prepend(x, rest)) == Join(front + [x], rest)
  {
    if rest.Got? {
      assert front + ([x] + rest.value) == front + [x] + rest.value;
    }
  }

  lemma WireTail(items: seq<Item>, i: nat)
    requires i < |items|
    ensures Wire(items[i..]) == Varint(items[i].num * 8 + WireType(items[i])) + Payload(items[i]) + Wire(items[i + 1..])
  {
    assert items[i..][1..] == items[i + 1..];
  }

  class Writer {
    var buf: seq<Byte>

    constructor ()
      ensures buf == []
    {
      buf := [];
    }

    /** Writes seven bits per byte, least significant first. */
    method Uint(n: nat)
      modifies this
      ensures buf == old(buf) + Varint(n)
    {
      var rest := n;
      while rest >= 128
        invariant buf + Varint(rest) == old(buf) + Varint(n)
        decreases rest
      {
        buf := buf + [rest % 128 + 128];
        rest := rest / 128;
      }
      buf := buf + [rest];
    }

    method Append(bytes: seq<Byte>)
      modifies this
      ensures buf == old(buf) + bytes
    {
      buf := buf + bytes;
    }

    /** Writes the fields of a message in order; a nested message is written to a fork of the writer
        and then appended with its length. */
    method EncodeMessage(items: seq<Item>)
      modifies this
      ensures buf == old(buf) + Wire(items)
      decreases items, 1
    {
      for i := 0 to |items|
        invariant buf + Wire(items[i..]) == old(buf) + Wire(items)
      {
        WireTail(items, i);
        Uint(items[i].num * 8 + WireType(items[i]));
        EncodePayload(items[i]);
      }
    }

    method EncodePayload(x: Item)
      modifies this
      ensures buf == old(buf) + Payload(x)
      decreases x, 0
    {
      match x
      case Scalar(_, n) => Uint(n);
      case Chunk(_, bytes) =>
        Uint(|bytes|);
        Append(bytes);
      case Nested(_, items) =>
        var fork := new Writer();
        fork.EncodeMessage(items);
        Uint(|fork.buf|);
        Append(fork.buf);
      case Fixed64(_, eight) => Append(eight);
      case Fixed32(_, four) => Append(four);
      case Group(num, members) =>
        EncodeMessage(members);
        Uint(num * 8 + 4);
    }
  }
}
