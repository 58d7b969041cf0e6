/** The four-byte big-endian form of a log position, as in clients/typescript/src/util/common.ts. */
module Lsn {

  import opened Types

  const TWO_8 := 0x100
  const TWO_16 := 0x1_0000
  const TWO_24 := 0x100_0000
  const TWO_31 := 0x8000_0000
  const TWO_32 := 0x1_0000_0000

  /** The signed 32-bit number to which JavaScript's bitwise operators convert `i`. */
  function ToInt32(i: int): (r: int)
    ensures -TWO_31 <= r < TWO_31
    ensures (r - i) % TWO_32 == 0
  {
    var low := i % TWO_32;
    if low < TWO_31 then low else low - TWO_32
  }

  /** Masking and shifting work on the low 32 bits of `i`; storing a byte keeps its low 8 bits. */
  function NumberToBytes(i: int): (bs: seq<Byte>)
  {
    var low := i % TWO_32;
    [low / TWO_24, low / TWO_16 % TWO_8, low / TWO_8 % TWO_8, low % TWO_8]
  }

  /** The unsigned number that the bytes spell, most significant byte first. */
  function BigEndian(bs: seq<Byte>): nat {
    if bs == [] then 0 else BigEndian(bs[..|bs| - 1]) * TWO_8 + bs[|bs| - 1]
  }

  /** Shifts left by 8 and sets the low byte; every step wraps to a signed 32-bit number. */
  method BytesToNumber(bs: seq<Byte>) returns (n: int)
    ensures n == ToInt32(BigEndian(bs))
  {
    n := 0;
    for i := 0 to |bs|
      invariant n == ToInt32(BigEndian(bs[..i]))
    {
      assert bs[..i + 1][..i] == bs[..i];
      ShiftStep(BigEndian(bs[..i]), bs[i]);
      n := ToInt32(n * TWO_8) + bs[i];
    }
    assert bs[..|bs|] == bs;
  }

  /** Wrapping before or after the shift gives the same number, and the low byte is free. */
  lemma ShiftStep(n: int, b: Byte)
    ensures ToInt32(ToInt32(n) * TWO_8) + b == ToInt32(n * TWO_8 + b)
  {
    var m := ToInt32(n);
    var k := (n - m) / TWO_32;
    assert n == m + k * TWO_32;
    assert n * TWO_8 == m * TWO_8 + (k * TWO_8) * TWO_32;
    var x := (n * TWO_8) % TWO_32;
    var q := (n * TWO_8) / TWO_32;
    assert n * TWO_8 == q * TWO_32 + x;
    LowByteIsFree(n * TWO_8 / TWO_32, n, x);
    Unwrap(n * TWO_8, q, x);
    Unwrap(n * TWO_8 + b, q, x + b);
    Unwrap(m * TWO_8, q - k * TWO_8, x);
  }

  lemma LowByteIsFree(q: int, n: int, x: int)
    requires n * TWO_8 == q * TWO_32 + x && 0 <= x < TWO_32
    ensures x % TWO_8 == 0 && x <= TWO_32 - TWO_8
  {
    assert x == (n - q * TWO_24) * TWO_8;
  }

  lemma Unwrap(i: int, q: int, low: int)
    requires i == q * TWO_32 + low && 0 <= low < TWO_32
    ensures i % TWO_32 == low
  {
  }

  lemma BigEndianOfFour(bs: seq<Byte>)
    requires |bs| == 4
    ensures BigEndian(bs) == bs[0] * TWO_24 + bs[1] * TWO_16 + bs[2] * TWO_8 + bs[3]
  {
    assert bs[..3][..2] == bs[..2] && bs[..2][..1] == bs[..1] && bs[..1][..0] == [];
    assert BigEndian(bs[..1]) == bs[0];
    assert BigEndian(bs[..2]) == bs[0] * TWO_8 + bs[1];
    assert BigEndian(bs[..3]) == (bs[0] * TWO_8 + bs[1]) * TWO_8 + bs[2];
  }

  /** What comes back from the bytes of a position is the position's signed 32-bit reading, so
      positions survive the trip exactly when they are below 2^31. */
  lemma PositionRoundTrip(i: nat)
    ensures |NumberToBytes(i)| == 4
    ensures ToInt32(BigEndian(NumberToBytes(i))) == ToInt32(i)
    ensures ToInt32(BigEndian(NumberToBytes(i))) == i <==> i < TWO_31
  {
    var bs := NumberToBytes(i);
    BigEndianOfFour(bs);
    FourBytes(i % TWO_32);
    assert BigEndian(bs) == i % TWO_32;
  }

  lemma FourBytes(low: int)
    requires 0 <= low < TWO_32
    ensures low / TWO_24 * TWO_24 + low / TWO_16 % TWO_8 * TWO_16 + low / TWO_8 % TWO_8 * TWO_8 + low % TWO_8 == low
  {
    assert low / TWO_16 == (low / TWO_24) * TWO_8 + low / TWO_16 % TWO_8;
    assert low / TWO_8 == (low / TWO_16) * TWO_8 + low / TWO_8 % TWO_8;
    assert low == (low / TWO_8) * TWO_8 + low % TWO_8;
  }

  /** The first position that does not come back. */
  lemma PositionWrapsAtTwoTo31()
    ensures ToInt32(BigEndian(NumberToBytes(TWO_31))) == -TWO_31
  {
    PositionRoundTrip(TWO_31);
  }

  const DEFAULT_LOG_POS: seq<Byte> := [0, 0, 0, 0]

  lemma DefaultIsZero()
    ensures NumberToBytes(0) == DEFAULT_LOG_POS && ToInt32(BigEndian(DEFAULT_LOG_POS)) == 0
  {
    PositionRoundTrip(0);
  }

  /** The position from which a start request asks to go on: first the position of the request, unless
      it asks for the last acknowledged one; then the default, unless it asks for the first position. */
  function StartPosition(current: seq<Byte>, lsn: seq<Byte>, lastAcknowledged: bool, first: bool): seq<Byte> {
    var position := if lastAcknowledged then current else lsn;
    if first then position else DEFAULT_LOG_POS
  }
}
