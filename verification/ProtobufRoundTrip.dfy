/** Decoding gives back what was encoded, with fields of unknown numbers left out. */
module ProtobufRoundTrip {
  import opened Types
  import opened Protobuf

  predicate At(buf: seq<Byte>, pos: nat, bytes: seq<Byte>) {
    pos + |bytes| <= |buf| && buf[pos..pos + |bytes|] == bytes
  }

  lemma AtBoth(buf: seq<Byte>, pos: nat, a: seq<Byte>, b: seq<Byte>)
    requires At(buf, pos, a + b)
    ensures At(buf, pos, a) && At(buf, pos + |a|, b)
  {
    var both := buf[pos..pos + |a + b|];
    assert both[..|a|] == a && both[|a|..] == b;
    assert buf[pos..pos + |a|] == both[..|a|];
    assert buf[pos + |a|..pos + |a| + |b|] == both[|a|..];
  }

  // ---- Varints ----

  function PowerOf128(k: nat): nat {
    if k == 0 then 1 else 128 * PowerOf128(k - 1)
  }

  lemma TenAreEnough()
    ensures TWO_64 <= PowerOf128(MAX_VARINT)
  {
    assert PowerOf128(5) == 0x8_0000_0000;
    assert PowerOf128(10) == 128 * 128 * 128 * 128 * 128 * PowerOf128(5);
  }

  lemma HighPartFits(n: nat, bound: nat)
    requires n < 128 * bound
    ensures n / 128 < bound && n == n % 128 + 128 * (n / 128)
  {
  }

  lemma {:induction false} ReadsVarint(buf: seq<Byte>, pos: nat, n: nat, left: nat)
    requires At(buf, pos, Varint(n)) && n < PowerOf128(left) && left > 0
    ensures ReadVarint(buf, pos, left) == Got(n, pos + |Varint(n)|)
    decreases n
  {
    if n < 128 {
      assert buf[pos..pos + 1][0] == n;
    } else {
      AtBoth(buf, pos, [n % 128 + 128], Varint(n / 128));
      assert buf[pos..pos + 1][0] == n % 128 + 128;
      HighPartFits(n, PowerOf128(left - 1));
      assert left - 1 > 0 by { assert PowerOf128(0) == 1; }
      ReadsVarint(buf, pos + 1, n / 128, left - 1);
    }
  }

  /** A number that another writer made larger than its field is cut to 32 or 64 bits, and to true or false. */
  lemma ScalarsAreCut(num: nat, buf: seq<Byte>, pos: nat, n: nat)
    requires At(buf, pos, Varint(n)) && n < PowerOf128(MAX_VARINT)
    ensures var end := pos + |Varint(n)|;
      ReadKnown(Uint32, num, buf, pos) == Got(Scalar(num, n % 0x1_0000_0000), end) &&
      ReadKnown(Uint64, num, buf, pos) == Got(Scalar(num, n % 0x1_0000_0000_0000_0000), end) &&
      ReadKnown(Bool, num, buf, pos) == Got(Scalar(num, if n % 0x1_0000_0000 == 0 then 0 else 1), end)
  {
    ReadsVarint(buf, pos, n, MAX_VARINT);
  }

  lemma FitsTenBytes(n: nat)
    requires n < TWO_64
    ensures n < PowerOf128(MAX_VARINT)
  {
    TenAreEnough();
  }

  /** A value below the bound is read whole, within the bytes a varint may take. */
  lemma ReadsWhole(buf: seq<Byte>, pos: nat, n: nat)
    requires At(buf, pos, Varint(n)) && n < TWO_64
    ensures ReadVarint(buf, pos, MAX_VARINT) == Got(n, pos + |Varint(n)|)
  {
    FitsTenBytes(n);
    ReadsVarint(buf, pos, n, MAX_VARINT);
  }

  lemma LowBits32(n: nat)
    requires n < TWO_32
    ensures n < TWO_64 && n % 0x1_0000_0000 == n
  {
  }

  lemma LowBits64(n: nat)
    requires n < TWO_64
    ensures n % 0x1_0000_0000_0000_0000 == n
  {
  }

  lemma ReadsUint32(buf: seq<Byte>, pos: nat, n: nat)
    requires At(buf, pos, Varint(n)) && n < TWO_32
    ensures ReadUint32(buf, pos) == Got(n, pos + |Varint(n)|)
  {
    LowBits32(n);
    ReadsWhole(buf, pos, n);
  }

  lemma ReadsUint64(buf: seq<Byte>, pos: nat, n: nat)
    requires At(buf, pos, Varint(n)) && n < TWO_64
    ensures ReadUint64(buf, pos) == Got(n, pos + |Varint(n)|)
  {
    LowBits64(n);
    ReadsWhole(buf, pos, n);
  }

  lemma {:induction false} SkipsVarint(buf: seq<Byte>, pos: nat, n: nat)
    requires At(buf, pos, Varint(n))
    ensures SkipVarint(buf, pos) == Got((), pos + |Varint(n)|)
    decreases n
  {
    if n < 128 {
      assert buf[pos..pos + 1][0] == n;
    } else {
      AtBoth(buf, pos, [n % 128 + 128], Varint(n / 128));
      assert buf[pos..pos + 1][0] == n % 128 + 128;
      SkipsVarint(buf, pos + 1, n / 128);
    }
  }

  // ---- Fields ----

  /** A field that a reader without its number in the descriptor can skip. */
  predicate Skippable(x: Item)
    decreases x
  {
    x.num * 8 + 7 < TWO_32 &&
    match x
    case Scalar(_, _) => true
    case Chunk(_, bytes) => |bytes| < TWO_32
    case Nested(_, items) => |Wire(items)| < TWO_32
    case Fixed64(_, eight) => |eight| == 8
    case Fixed32(_, four) => |four| == 4
    case Group(_, members) => forall i :: 0 <= i < |members| ==> Skippable(members[i])
  }

  /** The value fits the kind of its field number; nothing is asked of fields of unknown numbers but
      that they can be skipped. */
  predicate Valid(fields: Descriptor, x: Item)
    decreases x
  {
    x.num * 8 + 7 < TWO_32 &&
    if x.num !in fields then Skippable(x)
    else
      match x
      case Scalar(_, n) =>
        (match fields[x.num] case Uint32 => n < TWO_32 case Uint64 => n < TWO_64 case Bool => n <= 1 case _ => false)
      case Chunk(_, bytes) => fields[x.num].Bytes? && |bytes| < TWO_32
      case Nested(_, items) =>
        fields[x.num].Message? && |Wire(items)| < TWO_32 &&
        forall i :: 0 <= i < |items| ==> Valid(fields[x.num].fields, items[i])
      case _ => false
  }

  predicate AllValid(fields: Descriptor, items: seq<Item>) {
    forall i :: 0 <= i < |items| ==> Valid(fields, items[i])
  }

  /** The field as a reader of the descriptor sees it. */
  function Seen(fields: Descriptor, x: Item): Item
    decreases x
  {
    if x.Nested? && x.num in fields && fields[x.num].Message?
    then Nested(x.num, Known(fields[x.num].fields, x.items))
    else x
  }

  /** The fields of known numbers, at every level. */
  function Known(fields: Descriptor, items: seq<Item>): seq<Item>
    decreases items
  {
    if items == [] then []
    else if items[0].num in fields then [Seen(fields, items[0])] + Known(fields, items[1..])
    else Known(fields, items[1..])
  }

  function TagOf(x: Item): nat {
    x.num * 8 + WireType(x)
  }

  lemma TagParts(x: Item)
    ensures TagOf(x) / 8 == x.num && TagOf(x) % 8 == WireType(x) != 4
    ensures x.num * 8 + 7 < TWO_32 ==> TagOf(x) < TWO_32
  {
  }

  lemma Associates(a: seq<Byte>, b: seq<Byte>, c: seq<Byte>, d: seq<Byte>)
    ensures a + b + c + d == a + (b + (c + d))
  {
  }

  lemma WireSplits(items: seq<Item>, end: seq<Byte>)
    requires items != []
    ensures Wire(items) + end == Varint(TagOf(items[0])) + (Payload(items[0]) + (Wire(items[1..]) + end))
  {
    Associates(Varint(TagOf(items[0])), Payload(items[0]), Wire(items[1..]), end);
  }

  /** Where the parts of a field and the rest lie, and what the tag reads as. */
  lemma HeadAt(buf: seq<Byte>, pos: nat, tag: nat, payload: seq<Byte>, rest: seq<Byte>)
    requires At(buf, pos, Varint(tag) + (payload + rest)) && tag < TWO_32
    ensures var start := pos + |Varint(tag)|;
      ReadUint32(buf, pos) == Got(tag, start) && At(buf, start, payload) && At(buf, start + |payload|, rest)
  {
    AtBoth(buf, pos, Varint(tag), payload + rest);
    AtBoth(buf, pos + |Varint(tag)|, payload, rest);
    ReadsUint32(buf, pos, tag);
  }

  /** The same for a field in front of others, whose bytes together are `wire`. */
  lemma HeadParts(buf: seq<Byte>, pos: nat, wire: seq<Byte>, tag: nat, head: nat, payload: seq<Byte>,
        rest: seq<Byte>, close: seq<Byte>)
    requires wire + close == Varint(tag) + (payload + (rest + close)) && head == |Varint(tag)|
    requires At(buf, pos, wire + close) && tag < TWO_32
    ensures ReadUint32(buf, pos) == Got(tag, pos + head) && At(buf, pos + head, payload)
    ensures At(buf, pos + head + |payload|, rest + close) && |wire| == head + |payload| + |rest|
  {
    HeadAt(buf, pos, tag, payload, rest + close);
    assert |wire + close| == |wire| + |close|;
  }

  lemma HeadOf(buf: seq<Byte>, pos: nat, items: seq<Item>, close: seq<Byte>) returns (start: nat, next: nat)
    requires items != [] && items[0].num * 8 + 7 < TWO_32 && At(buf, pos, Wire(items) + close)
    ensures ReadUint32(buf, pos) == Got(TagOf(items[0]), start) && pos < start && At(buf, start, Payload(items[0]))
    ensures next == start + |Payload(items[0])| && At(buf, next, Wire(items[1..]) + close)
    ensures next + |Wire(items[1..])| == pos + |Wire(items)|
  {
    var wire, tag, payload, rest := Wire(items), TagOf(items[0]), Payload(items[0]), Wire(items[1..]);
    assert tag < TWO_32 by { TagParts(items[0]); }
    assert wire + close == Varint(tag) + (payload + (rest + close)) by { WireSplits(items, close); }
    var head := |Varint(tag)|;
    HeadParts(buf, pos, wire, tag, head, payload, rest, close);
    start := pos + head;
    next := start + |payload|;
  }

  lemma DelimitedAt(buf: seq<Byte>, pos: nat, bytes: seq<Byte>)
    requires At(buf, pos, Delimited(bytes)) && |bytes| < TWO_32
    ensures var start := pos + |Varint(|bytes|)|;
      ReadUint32(buf, pos) == Got(|bytes|, start) && At(buf, start, bytes) &&
        |Delimited(bytes)| == start - pos + |bytes|
  {
    AtBoth(buf, pos, Varint(|bytes|), bytes);
    ReadsUint32(buf, pos, |bytes|);
  }

  lemma SkipGroupStep(buf: seq<Byte>, pos: nat, tag: nat, next: nat, after: nat)
    requires ReadUint32(buf, pos) == Got(tag, next) && tag % 8 != 4
    requires SkipType(buf, next, tag % 8) == Got((), after)
    ensures SkipGroup(buf, pos) == SkipGroup(buf, after)
  {
  }

  lemma {:induction false} SkipsItem(buf: seq<Byte>, pos: nat, x: Item)
    requires Skippable(x) && At(buf, pos, Payload(x))
    ensures SkipType(buf, pos, WireType(x)) == Got((), pos + |Payload(x)|)
    decreases x, 0
  {
    match x
    case Scalar(_, n) => SkipsVarint(buf, pos, n);
    case Chunk(_, bytes) => DelimitedAt(buf, pos, bytes);
    case Nested(_, items) => DelimitedAt(buf, pos, Wire(items));
    case Fixed64(_, eight) =>
    case Fixed32(_, four) =>
    case Group(num, members) => SkipsMembers(buf, pos, members, num);
  }

  lemma {:induction false} SkipsMembers(buf: seq<Byte>, pos: nat, members: seq<Item>, num: nat)
    requires num * 8 + 7 < TWO_32 && forall i :: 0 <= i < |members| ==> Skippable(members[i])
    requires At(buf, pos, Wire(members) + Varint(num * 8 + 4))
    ensures SkipGroup(buf, pos) == Got((), pos + |Wire(members)| + |Varint(num * 8 + 4)|)
    decreases members, 0
  {
    var close := Varint(num * 8 + 4);
    if members == [] {
      assert Wire(members) + close == close;
      ReadsUint32(buf, pos, num * 8 + 4);
    } else {
      var start, next := HeadOf(buf, pos, members, close);
      SkipsItem(buf, start, members[0]);
      TagParts(members[0]);
      SkipGroupStep(buf, pos, TagOf(members[0]), start, next);
      SkipsMembers(buf, next, members[1..], num);
    }
  }

  lemma NestedIsDecoded(kind: Kind, num: nat, buf: seq<Byte>, pos: nat, r: Read<seq<Item>>)
    requires kind.Message? && ReadUint32(buf, pos).Got?
    requires var length := ReadUint32(buf, pos); r == Decode(kind.fields, buf, length.pos, length.pos + length.value)
    ensures ReadKnown(kind, num, buf, pos) == ReadNested(num, r)
  {
  }

  lemma ReadNestedStep(kind: Kind, num: nat, buf: seq<Byte>, pos: nat, length: nat, start: nat, items: seq<Item>,
        end: nat)
    requires kind.Message? && ReadUint32(buf, pos) == Got(length, start) && start + length == end
    requires start <= |buf| && Decode(kind.fields, buf, start, end) == Got(items, end)
    ensures ReadKnown(kind, num, buf, pos) == Got(Nested(num, items), end)
  {
    NestedIsDecoded(kind, num, buf, pos, Got(items, end));
  }

  lemma ReadsScalar(kind: Kind, num: nat, n: nat, buf: seq<Byte>, pos: nat)
    requires At(buf, pos, Varint(n)) &&
             (match kind case Uint32 => n < TWO_32 case Uint64 => n < TWO_64 case Bool => n <= 1 case _ => false)
    ensures ReadKnown(kind, num, buf, pos) == Got(Scalar(num, n), pos + |Varint(n)|)
  {
    if kind.Uint64? { ReadsUint64(buf, pos, n); } else { ReadsUint32(buf, pos, n); }
  }

  lemma ReadsBytes(num: nat, bytes: seq<Byte>, buf: seq<Byte>, pos: nat)
    requires At(buf, pos, Delimited(bytes)) && |bytes| < TWO_32
    ensures ReadKnown(Bytes, num, buf, pos) == Got(Chunk(num, bytes), pos + |Delimited(bytes)|)
  {
    DelimitedAt(buf, pos, bytes);
  }

  lemma {:induction false} ReadsItem(fields: Descriptor, buf: seq<Byte>, pos: nat, x: Item)
    requires Valid(fields, x) && x.num in fields && At(buf, pos, Payload(x))
    ensures ReadKnown(fields[x.num], x.num, buf, pos) == Got(Seen(fields, x), pos + |Payload(x)|)
    decreases x, 1
  {
    match x
    case Scalar(num, n) => ReadsScalar(fields[num], num, n, buf, pos);
    case Chunk(num, bytes) => ReadsBytes(num, bytes, buf, pos);
    case Nested(num, items) => ReadsNested(fields[num], num, buf, pos, items);
  }

  lemma {:induction false} ReadsNested(kind: Kind, num: nat, buf: seq<Byte>, pos: nat, items: seq<Item>)
    requires kind.Message? && AllValid(kind.fields, items) && |Wire(items)| < TWO_32 &&
             At(buf, pos, Delimited(Wire(items)))
    ensures ReadKnown(kind, num, buf, pos) ==
            Got(Nested(num, Known(kind.fields, items)), pos + |Delimited(Wire(items))|)
    decreases items, 1
  {
    var bytes := Wire(items);
    var start, end := pos + |Varint(|bytes|)|, pos + |Delimited(bytes)|;
    DelimitedAt(buf, pos, bytes);
    DecodesWire(kind.fields, buf, start, items, end);
    ReadNestedStep(kind, num, buf, pos, |bytes|, start, Known(kind.fields, items), end);
  }

  /** Decoding one known field and then the rest. */
  lemma DecodeKnownStep(fields: Descriptor, buf: seq<Byte>, pos: nat, end: nat, tag: nat, start: nat, x: Item,
                        next: nat,
                        rest: seq<Item>)
    requires pos < end && pos <= |buf| && ReadUint32(buf, pos) == Got(tag, start) && tag / 8 in fields
    requires ReadKnown(fields[tag / 8], tag / 8, buf, start) == Got(x, next)
    requires Decode(fields, buf, next, end) == Got(rest, end)
    ensures Decode(fields, buf, pos, end) == Got([x] + rest, end)
  {
  }

  /** Skipping one unknown field and then decoding the rest. */
  lemma DecodeSkipStep(fields: Descriptor, buf: seq<Byte>, pos: nat, end: nat, tag: nat, start: nat, next: nat,
                       rest: seq<Item>)
    requires pos < end && pos <= |buf| && ReadUint32(buf, pos) == Got(tag, start) && tag / 8 !in fields
    requires SkipType(buf, start, tag % 8) == Got((), next)
    requires Decode(fields, buf, next, end) == Got(rest, end)
    ensures Decode(fields, buf, pos, end) == Got(rest, end)
  {
  }

  /** Round trip of any list of fields, with fields of unknown numbers anywhere between and inside the
      known ones: decoding reads exactly the encoded bytes and returns the known fields in order. */
  lemma {:induction false} DecodesWire(fields: Descriptor, buf: seq<Byte>, pos: nat, items: seq<Item>, end: nat)
    requires AllValid(fields, items) && At(buf, pos, Wire(items)) && end == pos + |Wire(items)|
    ensures Decode(fields, buf, pos, end) == Got(Known(fields, items), end)
    decreases items, 0
  {
    if items != [] {
      var rest := items[1..];
      ValidParts(fields, items);
      NothingAfter(Wire(items));
      NothingAfter(Wire(rest));
      var start, next := HeadOf(buf, pos, items, []);
      DecodesWire(fields, buf, next, rest, end);
      DecodesHead(fields, buf, pos, end, items[0], start, next, Known(fields, rest));
      KnownStep(fields, items);
    }
  }

  lemma ValidParts(fields: Descriptor, items: seq<Item>)
    requires items != [] && AllValid(fields, items)
    ensures Valid(fields, items[0]) && AllValid(fields, items[1..]) && items[0].num * 8 + 7 < TWO_32
  {
  }

  lemma NothingAfter(bytes: seq<Byte>)
    ensures bytes + [] == bytes
  {
  }

  lemma KnownStep(fields: Descriptor, items: seq<Item>)
    requires items != []
    ensures Known(fields, items) == AfterHead(fields, items[0], Known(fields, items[1..]))
  {
  }

  function AfterHead(fields: Descriptor, x: Item, rest: seq<Item>): seq<Item> {
    if x.num in fields then [Seen(fields, x)] + rest else rest
  }

  lemma {:induction false} DecodesHead(fields: Descriptor, buf: seq<Byte>, pos: nat, end: nat, x: Item, start: nat,
                                          next: nat,
                                       rest: seq<Item>)
    requires Valid(fields, x) && pos < end && next <= |buf|
    requires ReadUint32(buf, pos) == Got(TagOf(x), start) && At(buf, start, Payload(x)) && start + |Payload(x)| == next
    requires Decode(fields, buf, next, end) == Got(rest, end)
    ensures Decode(fields, buf, pos, end) == Got(AfterHead(fields, x, rest), end)
    decreases x, 2
  {
    TagParts(x);
    if x.num in fields {
      ReadsItem(fields, buf, start, x);
      DecodeKnownStep(fields, buf, pos, end, TagOf(x), start, Seen(fields, x), next, rest);
    } else {
      SkipsItem(buf, start, x);
      DecodeSkipStep(fields, buf, pos, end, TagOf(x), start, next, rest);
    }
  }
}
