/** Rows on the wire: a null bitmask and one value per column, as in clients/typescript/src/satellite/client.ts. */
module RowCodec {
  import opened Types

  /** Text encoding, number printing and the text of tags, which the platform provides. */
  datatype Codec = Codec(
    encode: string -> seq<Byte>, decode: seq<Byte> -> string, show: int -> string, read: string -> int,
    encodeTag: Tag -> seq<Byte>, decodeTag: seq<Byte> -> Tag)

  ghost predicate Invertible(codec: Codec) {
    (forall s :: codec.decode(codec.encode(s)) == s) && (forall n :: codec.read(codec.show(n)) == n) &&
    forall t :: codec.decodeTag(codec.encodeTag(t)) == t
  }

  datatype SatOpRow = SatOpRow(nullsBitmask: seq<Byte>, values: seq<seq<Byte>>)

  // ---- Bits of a byte ----

  /** `(b >>> i) & 1` */
  predicate Bit(b: nat, i: nat) {
    if i == 0 then b % 2 == 1 else Bit(b / 2, i - 1)
  }

  /** `b | (1 << i)` */
  function SetBit(b: nat, i: nat): nat {
    if i == 0 then b / 2 * 2 + 1 else SetBit(b / 2, i - 1) * 2 + b % 2
  }

  function PowerOfTwo(n: nat): nat {
    if n == 0 then 1 else 2 * PowerOfTwo(n - 1)
  }

  lemma {:induction false} SetBitSets(b: nat, i: nat, j: nat)
    ensures Bit(SetBit(b, i), j) <==> Bit(b, j) || j == i
  {
    if i > 0 && j > 0 {
      SetBitSets(b / 2, i - 1, j - 1);
    } else if i > 0 {
      assert SetBit(b, i) % 2 == b % 2;
    } else if j > 0 {
      assert SetBit(b, i) / 2 == b / 2;
    }
  }

  lemma {:induction false} SetBitFits(b: nat, i: nat, n: nat)
    requires i < n && b < PowerOfTwo(n)
    ensures SetBit(b, i) < PowerOfTwo(n)
  {
    if i > 0 {
      SetBitFits(b / 2, i - 1, n - 1);
    }
  }

  /** A number below 2^n is determined by its low n bits. */
  lemma {:induction false} BitsDetermine(a: nat, b: nat, n: nat)
    requires a < PowerOfTwo(n) && b < PowerOfTwo(n) && forall i: nat :: i < n ==> (Bit(a, i) <==> Bit(b, i))
    ensures a == b
  {
    if n > 0 {
      forall i: nat | i < n - 1
        ensures Bit(a / 2, i) <==> Bit(b / 2, i)
      {
        assert Bit(a, i + 1) <==> Bit(b, i + 1);
      }
      assert Bit(a, 0) <==> Bit(b, 0);
      BitsDetermine(a / 2, b / 2, n - 1);
    }
  }

  lemma NoBits(i: nat)
    ensures !Bit(0, i)
  {
  }

  // ---- Masks: bit 0 is the most significant bit of the first byte ----

  function NumBytes(columns: nat): (r: nat)
    ensures columns <= 8 * r < columns + 8
  {
    var rem := columns % 8;
    if rem == 0 then columns / 8 else 1 + (columns - rem) / 8
  }

  /** Beyond the end of the mask the bit reads as 0. */
  predicate MaskBit(mask: seq<Byte>, index: nat) {
    index / 8 < |mask| && Bit(mask[index / 8], 7 - index % 8)
  }

  method SetMaskBit(mask: array<Byte>, index: nat)
    requires index / 8 < mask.Length
    modifies mask
    ensures forall p: nat :: p / 8 < mask.Length ==> (MaskBit(mask[..], p) <==> MaskBit(old(mask[..]), p) || p == index)
  {
    var byteIndex := index / 8;
    var bitIndex := 7 - index % 8;
    assert PowerOfTwo(8) == 256;
    SetBitFits(mask[byteIndex], bitIndex, 8);
    mask[byteIndex] := SetBit(mask[byteIndex], bitIndex);
    forall p: nat | p / 8 < mask.Length
      ensures MaskBit(mask[..], p) <==> MaskBit(old(mask[..]), p) || p == index
    {
      SetBitSets(old(mask[byteIndex]), bitIndex, 7 - p % 8);
    }
  }

  // ---- Columns and records ----

  function UpperChar(c: char): char {
    if 'a' <= c <= 'z' then c - 'a' + 'A' else c
  }

  function Upper(s: string): string {
    if s == "" then "" else [UpperChar(s[0])] + Upper(s[1..])
  }

  predicate IsTextType(ctype: string) {
    Upper(ctype) in ["CHAR", "TEXT", "UUID", "VARCHAR"]
  }

  predicate IsNumberType(ctype: string) {
    Upper(ctype) in ["FLOAT4", "FLOAT8", "INT", "INT2", "INT4", "INT8", "INTEGER"]
  }

  /** A missing column counts as null. */
  function ValueOf(rec: Row, c: Column): SqlValue {
    if c.name in rec then rec[c.name] else Null
  }

  function SerializeValue(codec: Codec, v: SqlValue): seq<Byte> {
    match v
    case Null => codec.encode("")
    case Number(n) => codec.encode(codec.show(n))
    case Text(s) => codec.encode(s)
  }

  /** None stands for the error on an unknown column type. */
  function DeserializeValue(codec: Codec, bytes: seq<Byte>, ctype: string): Option<SqlValue> {
    if IsTextType(ctype) then Some(Text(codec.decode(bytes)))
    else if IsNumberType(ctype) then Some(Number(codec.read(codec.decode(bytes))))
    else None
  }

  /** The row that a record serializes to: null columns have their mask bit set and an empty text as
      value, all other bits are 0. */
  predicate IsRowOf(codec: Codec, row: SatOpRow, rec: Row, columns: seq<Column>) {
    |row.values| == |columns| && |row.nullsBitmask| == NumBytes(|columns|) &&
    (forall i :: 0 <= i < |columns| ==> row.values[i] == SerializeValue(codec, ValueOf(rec, columns[i]))) &&
    forall p: nat | p < 8 * |row.nullsBitmask| ::
      MaskBit(row.nullsBitmask, p) <==> p < |columns| && ValueOf(rec, columns[p]).Null?
  }

  lemma RowIsUnique(codec: Codec, a: SatOpRow, b: SatOpRow, rec: Row, columns: seq<Column>)
    requires IsRowOf(codec, a, rec, columns) && IsRowOf(codec, b, rec, columns)
    ensures a == b
  {
    forall k | 0 <= k < |a.nullsBitmask|
      ensures a.nullsBitmask[k] == b.nullsBitmask[k]
    {
      forall i: nat | i < 8
        ensures Bit(a.nullsBitmask[k], i) <==> Bit(b.nullsBitmask[k], i)
      {
        var p := 8 * k + (7 - i);
        assert p / 8 == k && p % 8 == 7 - i;
        assert MaskBit(a.nullsBitmask, p) <==> MaskBit(b.nullsBitmask, p);
      }
      assert PowerOfTwo(8) == 256;
      BitsDetermine(a.nullsBitmask[k], b.nullsBitmask[k], 8);
    }
  }

  /** The mask after the first `n` columns. */
  function Mask(rec: Row, columns: seq<Column>, n: nat): (mask: seq<Byte>)
    requires n <= |columns|
    ensures |mask| == NumBytes(|columns|)
  {
    if n == 0 then seq(NumBytes(|columns|), _ => 0)
    else
      var before, p := Mask(rec, columns, n - 1), n - 1;
      if ValueOf(rec, columns[p]).Null? then
        assert PowerOfTwo(8) == 256;
        SetBitFits(before[p / 8], 7 - p % 8, 8);
        before[p / 8 := SetBit(before[p / 8], 7 - p % 8)]
      else before
  }

  lemma {:induction false} MaskMarksNulls(rec: Row, columns: seq<Column>, n: nat, p: nat)
    requires n <= |columns| && p < 8 * NumBytes(|columns|)
    ensures MaskBit(Mask(rec, columns, n), p) <==> p < n && ValueOf(rec, columns[p]).Null?
  {
    if n == 0 {
      NoBits(7 - p % 8);
    } else {
      MaskMarksNulls(rec, columns, n - 1, p);
      var before, q := Mask(rec, columns, n - 1), n - 1;
      if p / 8 == q / 8 {
        SetBitSets(before[q / 8], 7 - q % 8, 7 - p % 8);
        assert p % 8 == q % 8 ==> p == q;
      }
    }
  }

  function Serialized(codec: Codec, rec: Row, columns: seq<Column>): SatOpRow {
    SatOpRow(Mask(rec, columns, |columns|),
             seq(|columns|, i requires 0 <= i < |columns| => SerializeValue(codec, ValueOf(rec, columns[i]))))
  }

  lemma SerializedIsRow(codec: Codec, rec: Row, columns: seq<Column>)
    ensures IsRowOf(codec, Serialized(codec, rec, columns), rec, columns)
    ensures forall i :: 0 <= i < |columns| && (columns[i].name !in rec || rec[columns[i].name].Null?) ==>
            Serialized(codec, rec, columns).values[i] == codec.encode("")
  {
    forall p: nat | p < 8 * NumBytes(|columns|)
      ensures MaskBit(Mask(rec, columns, |columns|), p) <==> p < |columns| && ValueOf(rec, columns[p]).Null?
    {
      MaskMarksNulls(rec, columns, |columns|, p);
    }
  }

  method SerializeRow(codec: Codec, rec: Row, columns: seq<Column>) returns (row: SatOpRow)
    ensures IsRowOf(codec, row, rec, columns) && row == Serialized(codec, rec, columns)
  {
    var mask := new Byte[NumBytes(|columns|)](_ => 0);
    forall p: nat ensures !MaskBit(mask[..], p) { NoBits(7 - p % 8); }
    var values := [];
    for n := 0 to |columns|
      invariant |values| == n && forall i :: 0 <= i < n ==> values[i] == SerializeValue(codec, ValueOf(rec, columns[i]))
      invariant forall p: nat :: p / 8 < mask.Length ==>
                (MaskBit(mask[..], p) <==> p < n && ValueOf(rec, columns[p]).Null?)
    {
      var c := columns[n];
      if c.name in rec && rec[c.name] != Null {
        values := values + [SerializeValue(codec, rec[c.name])];
      } else {
        values := values + [codec.encode("")];
        SetMaskBit(mask, n);
      }
    }
    row := SatOpRow(mask[..], values);
    SerializedIsRow(codec, rec, columns);
    RowIsUnique(codec, row, Serialized(codec, rec, columns), rec, columns);
  }

  function DeserializeColumn(codec: Codec, row: SatOpRow, i: nat, c: Column): Option<SqlValue> {
    if MaskBit(row.nullsBitmask, i) then Some(Null)
    else DeserializeValue(codec, if i < |row.values| then row.values[i] else [], c.ctype)
  }

  /** The record of a row, or None for the error on an unknown column type. */
  function DeserializeColumns(codec: Codec, row: SatOpRow, columns: seq<Column>): Option<Row> {
    if columns == [] then Some(map[])
    else
      var n := |columns| - 1;
      match (DeserializeColumns(codec, row, columns[..n]), DeserializeColumn(codec, row, n, columns[n]))
      case (Some(rec), Some(v)) => Some(rec[columns[n].name := v])
      case _ => None
  }

  /** A row that is absent deserializes to an absent record. */
  function DeserializeRow(codec: Codec, row: Option<SatOpRow>, columns: seq<Column>): Option<Option<Row>> {
    match row
    case None => Some(None)
    case Some(r) =>
      match DeserializeColumns(codec, r, columns)
      case None => None
      case Some(rec) => Some(Some(rec))
  }

  /** The value can be stored in a column of this type. */
  predicate Fits(v: SqlValue, c: Column) {
    match v
    case Null => true
    case Number(_) => IsNumberType(c.ctype) && !IsTextType(c.ctype)
    case Text(_) => IsTextType(c.ctype)
  }

  predicate RecordFits(rec: Row, columns: seq<Column>) {
    forall i :: 0 <= i < |columns| ==> Fits(ValueOf(rec, columns[i]), columns[i])
  }

  /** The record restricted to the columns, with missing values as null. */
  function Normal(rec: Row, columns: seq<Column>): Row {
    if columns == [] then map[]
    else
      var n := |columns| - 1;
      Normal(rec, columns[..n])[columns[n].name := ValueOf(rec, columns[n])]
  }

  lemma {:induction false} NormalHolds(rec: Row, columns: seq<Column>, i: nat)
    requires i < |columns|
    ensures columns[i].name in Normal(rec, columns) && Normal(rec, columns)[columns[i].name] == ValueOf(rec, columns[i])
  {
    var n := |columns| - 1;
    if i < n && columns[i].name != columns[n].name {
      NormalHolds(rec, columns[..n], i);
    }
  }

  lemma {:induction false} NormalHoldsOnly(rec: Row, columns: seq<Column>, name: string)
    requires name in Normal(rec, columns)
    ensures exists i :: 0 <= i < |columns| && columns[i].name == name
  {
    var n := |columns| - 1;
    if name != columns[n].name {
      NormalHoldsOnly(rec, columns[..n], name);
      var i :| 0 <= i < n && columns[..n][i].name == name;
      assert columns[i].name == name;
    }
  }

  /** Round trip: deserializing a serialized record gives the record with missing values as null.  In
      particular an empty text comes back as a text, not as null. */
  lemma {:induction false} RowRoundTrip(codec: Codec, row: SatOpRow, rec: Row, columns: seq<Column>)
    requires Invertible(codec) && IsRowOf(codec, row, rec, columns) && RecordFits(rec, columns)
    ensures DeserializeRow(codec, Some(row), columns) == Some(Some(Normal(rec, columns)))
  {
    ColumnsRoundTrip(codec, row, rec, columns, |columns|);
    assert columns[..|columns|] == columns;
  }

  lemma {:induction false} ColumnsRoundTrip(codec: Codec, row: SatOpRow, rec: Row, columns: seq<Column>, n: nat)
    requires Invertible(codec) && IsRowOf(codec, row, rec, columns) && RecordFits(rec, columns) && n <= |columns|
    ensures DeserializeColumns(codec, row, columns[..n]) == Some(Normal(rec, columns[..n]))
  {
    if n > 0 {
      ColumnsRoundTrip(codec, row, rec, columns, n - 1);
      ColumnRoundTrip(codec, row, rec, columns, n - 1);
      OneMoreColumn(codec, row, rec, columns, n - 1);
    }
  }

  lemma OneMoreColumn(codec: Codec, row: SatOpRow, rec: Row, columns: seq<Column>, i: nat)
    requires i < |columns| && DeserializeColumns(codec, row, columns[..i]) == Some(Normal(rec, columns[..i]))
    requires DeserializeColumn(codec, row, i, columns[i]) == Some(ValueOf(rec, columns[i]))
    ensures DeserializeColumns(codec, row, columns[..i + 1]) == Some(Normal(rec, columns[..i + 1]))
  {
    assert columns[..i + 1][..i] == columns[..i] && columns[..i + 1][i] == columns[i];
  }

  lemma ColumnRoundTrip(codec: Codec, row: SatOpRow, rec: Row, columns: seq<Column>, i: nat)
    requires Invertible(codec) && IsRowOf(codec, row, rec, columns) && RecordFits(rec, columns) && i < |columns|
    ensures DeserializeColumn(codec, row, i, columns[i]) == Some(ValueOf(rec, columns[i]))
  {
    assert i < 8 * |row.nullsBitmask|;
    assert MaskBit(row.nullsBitmask, i) <==> ValueOf(rec, columns[i]).Null?;
  }

  predicate DistinctNames(columns: seq<Column>) {
    forall i, j :: 0 <= i < j < |columns| ==> columns[i].name != columns[j].name
  }

  lemma {:induction false} DeserializedColumn(codec: Codec, row: SatOpRow, columns: seq<Column>, n: nat, i: nat)
    requires DistinctNames(columns) && i < n <= |columns|
    requires DeserializeColumns(codec, row, columns[..n]).Some?
    ensures var rec := DeserializeColumns(codec, row, columns[..n]).value;
      columns[i].name in rec && DeserializeColumn(codec, row, i, columns[i]) == Some(rec[columns[i].name])
  {
    assert columns[..n][..n - 1] == columns[..n - 1] && columns[..n][n - 1] == columns[n - 1];
    if i < n - 1 {
      DeserializedColumn(codec, row, columns, n - 1, i);
    }
  }

  lemma MisfitIsLost(codec: Codec, row: SatOpRow, rec: Row, columns: seq<Column>, i: nat)
    requires Invertible(codec) && IsRowOf(codec, row, rec, columns) && DistinctNames(columns)
    requires i < |columns| && !Fits(ValueOf(rec, columns[i]), columns[i])
    ensures DeserializeColumns(codec, row, columns) != Some(Normal(rec, columns))
  {
    assert columns[..|columns|] == columns;
    assert i < 8 * |row.nullsBitmask|;
    assert MaskBit(row.nullsBitmask, i) <==> ValueOf(rec, columns[i]).Null?;
    NormalHolds(rec, columns, i);
    if DeserializeColumns(codec, row, columns).Some? {
      DeserializedColumn(codec, row, columns, |columns|, i);
    }
  }

  /** A record survives the trip exactly when each of its values is null or of its column's type. */
  lemma RowRoundTripExactly(codec: Codec, row: SatOpRow, rec: Row, columns: seq<Column>)
    requires Invertible(codec) && IsRowOf(codec, row, rec, columns) && DistinctNames(columns)
    ensures DeserializeRow(codec, Some(row), columns) == Some(Some(Normal(rec, columns))) <==> RecordFits(rec, columns)
  {
    if RecordFits(rec, columns) {
      RowRoundTrip(codec, row, rec, columns);
    } else {
      var i :| 0 <= i < |columns| && !Fits(ValueOf(rec, columns[i]), columns[i]);
      MisfitIsLost(codec, row, rec, columns, i);
    }
  }

  /** `s` is the upper-case text `word` in letters of either case. */
  predicate Spells(s: string, word: string) {
    |s| == |word| && forall i | 0 <= i < |s| ::
      s[i] == word[i] || ('a' <= s[i] <= 'z' && s[i] as int - 'a' as int == word[i] as int - 'A' as int)
  }

  const NUMBER_TYPES := {"FLOAT4", "FLOAT8", "INT", "INT2", "INT4", "INT8", "INTEGER"}
  const TEXT_TYPES := {"CHAR", "TEXT", "UUID", "VARCHAR"}

  /** A type that is read neither as a number nor as a text. */
  predicate UnknownType(ctype: string) {
    forall w :: w in NUMBER_TYPES + TEXT_TYPES ==> !Spells(ctype, w)
  }

  lemma {:induction false} UpperAt(s: string, i: nat)
    requires i < |s|
    ensures |Upper(s)| == |s| && Upper(s)[i] == UpperChar(s[i])
  {
    if |s| > 1 {
      UpperAt(s[1..], if i == 0 then 0 else i - 1);
    }
  }

  lemma UpperSpells(s: string, word: string)
    requires forall i :: 0 <= i < |word| ==> !('a' <= word[i] <= 'z')
    ensures Upper(s) == word <==> Spells(s, word)
  {
    forall i | 0 <= i < |s| ensures |Upper(s)| == |s| && Upper(s)[i] == UpperChar(s[i]) {
      UpperAt(s, i);
    }
  }

  /** The types by which a value comes back as a number or as a text, in letters of either case; all others are
      an error. */
  lemma TypesAreRead(codec: Codec, n: int, text: string, ctype: string)
    requires Invertible(codec)
    ensures DeserializeValue(codec, SerializeValue(codec, Number(n)), ctype) == Some(Number(n)) <==>
            exists w :: w in NUMBER_TYPES && Spells(ctype, w)
    ensures DeserializeValue(codec, SerializeValue(codec, Text(text)), ctype) == Some(Text(text)) <==>
            exists w :: w in TEXT_TYPES && Spells(ctype, w)
    ensures DeserializeValue(codec, SerializeValue(codec, Text(text)), ctype).None? <==>
            UnknownType(ctype)
  {
    forall w | w in NUMBER_TYPES + TEXT_TYPES ensures Upper(ctype) == w <==> Spells(ctype, w) {
      UpperSpells(ctype, w);
    }
  }

  /** A value that is not null is of an unknown type. */
  predicate HasUnknownType(row: SatOpRow, columns: seq<Column>) {
    exists i :: 0 <= i < |columns| && !MaskBit(row.nullsBitmask, i) && UnknownType(columns[i].ctype)
  }

  lemma UnknownTypeIsUnread(codec: Codec, bytes: seq<Byte>, ctype: string)
    ensures DeserializeValue(codec, bytes, ctype).None? <==> UnknownType(ctype)
  {
    forall w | w in NUMBER_TYPES + TEXT_TYPES ensures Upper(ctype) == w <==> Spells(ctype, w) {
      UpperSpells(ctype, w);
    }
    var upper := Upper(ctype);
    assert IsTextType(ctype) <==> upper in TEXT_TYPES;
    assert IsNumberType(ctype) <==> upper in NUMBER_TYPES;
    assert upper in NUMBER_TYPES + TEXT_TYPES ==> Spells(ctype, upper);
  }

  lemma OneMoreType(row: SatOpRow, columns: seq<Column>)
    requires columns != []
    ensures var n := |columns| - 1;
      HasUnknownType(row, columns) <==>
      HasUnknownType(row, columns[..n]) || (!MaskBit(row.nullsBitmask, n) && UnknownType(columns[n].ctype))
  {
    assert forall i :: 0 <= i < |columns| - 1 ==> columns[..|columns| - 1][i] == columns[i];
  }

  lemma {:induction false} UnknownTypeIsError(codec: Codec, row: SatOpRow, columns: seq<Column>)
    ensures DeserializeRow(codec, Some(row), columns).None? <==> HasUnknownType(row, columns)
  {
    if columns != [] {
      var n := |columns| - 1;
      UnknownTypeIsError(codec, row, columns[..n]);
      UnknownTypeIsUnread(codec, if n < |row.values| then row.values[n] else [], columns[n].ctype);
      OneMoreType(row, columns);
    }
  }
}
