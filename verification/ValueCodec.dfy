/** How values are stored: primary keys (scan.cc: convert_key_to_value) and decimal(15,2) columns
    (raw_data_handler.h: get_column_value, convert_value_to_char). */
module ValueCodec {
  import opened KeyRange
  import opened RowData
  import opened RowLayout
  import opened Sequences
  import Values

  function FlipTop(b: int): Byte
    requires 0 <= b < 256
  {
    if b < 128 then b + 128 else b - 128
  }

  // ---------------------------------------------------------------- primary keys

  /** An int in a key: big-endian with the sign bit flipped, so that byte order is number order. */
  function KeyBytes(k: int): (t: Bytes)
    requires Int32(k)
    ensures |t| == 4
  {
    var r := SeekKey(k);
    [FlipTop(r[0]), r[1], r[2], r[3]]
  }

  lemma KeyBytesPrefix(k: int)
    requires Int32(k)
    ensures Prefix(KeyBytes(k)) == k + 0x8000_0000
  {
    Bytes4(Unsigned(k));
    var top := Unsigned(k) / 256 / 256 / 256;
    assert k < 0 <==> top >= 128;
  }

  /** Keys sort like the numbers in them. */
  lemma KeyOrder(j: int, k: int)
    requires Int32(j) && Int32(k)
    ensures Less(KeyBytes(j), KeyBytes(k)) <==> j < k
  {
    LessIsPrefixLess(KeyBytes(j), KeyBytes(k));
    KeyBytesPrefix(j);
    KeyBytesPrefix(k);
  }

  /** The bytes of one key part with the first one flipped, last to first. */
  function Converted(part: Bytes, n: nat): Bytes
    requires n <= |part|
  {
    if n == 0 then []
    else Cat(Converted(part, n - 1), [if |part| - n == 0 then FlipTop(part[0]) else part[|part| - n]])
  }

  method ConvertPart(part: Bytes, before: Bytes) returns (out: Bytes)
    requires part != []
    ensures out == before + WholePart(part)
  {
    var origin := part[0 := FlipTop(part[0])];
    out := before;
    var i := |origin| - 1;
    while i >= 0
      invariant -1 <= i < |part| && out == before + Converted(part, |part| - 1 - i)
    {
      CatIsConcat(Converted(part, |part| - 1 - i), [origin[i]]);
      out := out + [origin[i]];
      i := i - 1;
    }
  }

  predicate Int32s(ks: seq<int>) {
    forall i :: 0 <= i < |ks| ==> Int32(ks[i])
  }

  /** The values stored behind the table number, k of them. */
  function KeyTail(ks: seq<int>, k: nat): Bytes
    requires k <= |ks| && Int32s(ks)
  {
    if k == 0 then [] else Cat(KeyTail(ks, k - 1), KeyBytes(ks[k - 1]))
  }

  /** The same values as the row wants them: little-endian. */
  function RowKeys(ks: seq<int>, k: nat): (t: Bytes)
    requires k <= |ks| && Int32s(ks)
    ensures |t| == 4 * k
  {
    if k == 0 then [] else Cat(RowKeys(ks, k - 1), IntBytes(ks[k - 1]))
  }

  lemma ConvertedKey(k: int)
    requires Int32(k)
    ensures WholePart(KeyBytes(k)) == IntBytes(k)
  {
    var t := KeyBytes(k);
    assert Converted(t, 0) == [];
    assert Converted(t, 1) == [t[3]];
    assert Converted(t, 2) == [t[3], t[2]];
    assert Converted(t, 3) == [t[3], t[2], t[1]];
    assert Converted(t, 4) == [t[3], t[2], t[1], FlipTop(t[0])];
    FlipTwice(SeekKey(k)[0]);
  }

  lemma FlipTwice(b: int)
    requires 0 <= b < 256
    ensures FlipTop(FlipTop(b)) == b
  {
  }

  lemma {:induction false} TailLength(ks: seq<int>, k: nat)
    requires k <= |ks| && Int32s(ks)
    ensures |KeyTail(ks, k)| == 4 * k
    decreases k
  {
    if k > 0 {
      TailLength(ks, k - 1);
    }
  }

  lemma {:induction false} TailPart(ks: seq<int>, p: nat, k: nat)
    requires p < k <= |ks| && Int32s(ks)
    ensures |KeyTail(ks, k)| == 4 * k && KeyTail(ks, k)[4 * p..4 * p + 4] == KeyBytes(ks[p])
    decreases k
  {
    TailLength(ks, k - 1);
    CatIsConcat(KeyTail(ks, k - 1), KeyBytes(ks[k - 1]));
    if p < k - 1 {
      TailPart(ks, p, k - 1);
      assert KeyTail(ks, k)[4 * p..4 * p + 4] == KeyTail(ks, k - 1)[4 * p..4 * p + 4];
    }
  }

  // ---------------------------------------------------------------- the order of whole keys

  /** Comparing byte strings with heads of one length: the heads decide unless they are equal. */
  lemma {:induction false} LessOfHeads(a: Bytes, b: Bytes, x: Bytes, y: Bytes)
    requires |a| == |b|
    ensures Less(a + x, b + y) <==> Less(a, b) || (a == b && Less(x, y))
    decreases |a|
  {
    if a == [] {
      assert a + x == x && b + y == y;
    } else {
      LessOfHeads(a[1..], b[1..], x, y);
      assert (a + x)[1..] == a[1..] + x && (b + y)[1..] == b[1..] + y;
      assert a == b <==> a[0] == b[0] && a[1..] == b[1..] by {
        assert a == [a[0]] + a[1..] && b == [b[0]] + b[1..];
      }
    }
  }

  predicate SameFirst(js: seq<int>, ks: seq<int>, k: nat)
    requires k <= |js| && k <= |ks|
  {
    k == 0 || (SameFirst(js, ks, k - 1) && js[k - 1] == ks[k - 1])
  }

  /** Lexicographic order of the first k values. */
  predicate ListLess(js: seq<int>, ks: seq<int>, k: nat)
    requires k <= |js| && k <= |ks|
  {
    k > 0 && (ListLess(js, ks, k - 1) || (SameFirst(js, ks, k - 1) && js[k - 1] < ks[k - 1]))
  }

  lemma SameConcat(a: Bytes, b: Bytes, x: Bytes, y: Bytes)
    requires |a| == |b|
    ensures a + x == b + y <==> a == b && x == y
  {
    if a + x == b + y {
      assert a == (a + x)[..|a|] == b;
      assert x == (a + x)[|a|..] == y;
    }
  }

  lemma KeyBytesInjective(j: int, k: int)
    requires Int32(j) && Int32(k)
    ensures KeyBytes(j) == KeyBytes(k) <==> j == k
  {
    KeyBytesPrefix(j);
    KeyBytesPrefix(k);
  }

  /** One more column: how two keys compare is decided by the columns before it, or by it. */
  lemma TailStep(js: seq<int>, ks: seq<int>, k: nat)
    requires Int32s(js) && Int32s(ks) && 0 < k <= |js| && k <= |ks|
    ensures KeyTail(js, k) == KeyTail(ks, k) <==> KeyTail(js, k - 1) == KeyTail(ks, k - 1) && js[k - 1] == ks[k - 1]
    ensures Less(KeyTail(js, k), KeyTail(ks, k)) <==>
      (Less(KeyTail(js, k - 1), KeyTail(ks, k - 1))
       || (KeyTail(js, k - 1) == KeyTail(ks, k - 1) && js[k - 1] < ks[k - 1]))
  {
    var a, b, x, y := KeyTail(js, k - 1), KeyTail(ks, k - 1), KeyBytes(js[k - 1]), KeyBytes(ks[k - 1]);
    TailLength(js, k - 1);
    TailLength(ks, k - 1);
    CatIsConcat(a, x);
    CatIsConcat(b, y);
    SameConcat(a, b, x, y);
    LessOfHeads(a, b, x, y);
    KeyBytesInjective(js[k - 1], ks[k - 1]);
    KeyOrder(js[k - 1], ks[k - 1]);
  }

  lemma {:induction false} TailInjective(js: seq<int>, ks: seq<int>, k: nat)
    requires Int32s(js) && Int32s(ks) && k <= |js| && k <= |ks|
    ensures KeyTail(js, k) == KeyTail(ks, k) <==> SameFirst(js, ks, k)
    decreases k
  {
    if k > 0 {
      TailInjective(js, ks, k - 1);
      TailStep(js, ks, k);
    }
  }

  /** Keys with the same number of columns sort like the lists of their values. */
  lemma {:induction false} KeyListOrder(js: seq<int>, ks: seq<int>, k: nat)
    requires Int32s(js) && Int32s(ks) && k <= |js| && k <= |ks|
    ensures Less(KeyTail(js, k), KeyTail(ks, k)) <==> ListLess(js, ks, k)
    decreases k
  {
    if k > 0 {
      KeyListOrder(js, ks, k - 1);
      TailStep(js, ks, k);
      TailInjective(js, ks, k - 1);
    }
  }

  /** The key of a row: table number, then the values. */
  predicate KeyOf(key: Bytes, n: int, ks: seq<int>) {
    && Int32(n) && Int32s(ks)
    && key == SeekKey(n) + KeyTail(ks, |ks|)
  }

  /** Part p of a key. */
  function KeyPart(key: Bytes, p: nat): (t: Bytes)
    requires 8 + 4 * p <= |key|
    ensures |t| == 4
  {
    key[4 + 4 * p..8 + 4 * p]
  }

  function WholePart(part: Bytes): Bytes {
    Converted(part, |part|)
  }

  /** The first p parts of a key, converted. */
  function ConvertedParts(key: Bytes, p: nat): Bytes
    requires 4 + 4 * p <= |key|
  {
    if p == 0 then [] else Cat(ConvertedParts(key, p - 1), WholePart(KeyPart(key, p - 1)))
  }

  method ConvertKey(key: Bytes, count: nat) returns (out: Bytes)
    requires 4 + 4 * count <= |key|
    ensures out == ConvertedParts(key, count)
  {
    var offset := 4;
    out := [];
    for p := 0 to count
      invariant offset == 4 + 4 * p && out == ConvertedParts(key, p)
    {
      var origin := key[offset..offset + 4];
      assert origin == KeyPart(key, p);
      out := ConvertPart(origin, out);
      CatIsConcat(ConvertedParts(key, p), WholePart(origin));
      offset := offset + 4;
    }
  }

  lemma KeyPartIs(key: Bytes, n: int, ks: seq<int>, p: nat)
    requires KeyOf(key, n, ks) && p < |ks|
    ensures 8 + 4 * p <= |key| && KeyPart(key, p) == KeyBytes(ks[p])
  {
    TailPart(ks, p, |ks|);
    assert KeyPart(key, p) == KeyTail(ks, |ks|)[4 * p..4 * p + 4];
  }

  lemma {:induction false} ConvertedPartsAre(key: Bytes, n: int, ks: seq<int>, p: nat)
    requires KeyOf(key, n, ks) && p <= |ks| && 4 + 4 * p <= |key|
    ensures ConvertedParts(key, p) == RowKeys(ks, p)
    decreases p
  {
    if p > 0 {
      ConvertedPartsAre(key, n, ks, p - 1);
      KeyPartIs(key, n, ks, p - 1);
      ConvertedKey(ks[p - 1]);
    }
  }

  lemma {:induction false} RowKeyAt(ks: seq<int>, p: nat, k: nat)
    requires p < k <= |ks| && Int32s(ks)
    ensures RowKeys(ks, k)[4 * p..4 * p + 4] == IntBytes(ks[p])
    decreases k
  {
    CatIsConcat(RowKeys(ks, k - 1), IntBytes(ks[k - 1]));
    if p < k - 1 {
      RowKeyAt(ks, p, k - 1);
      assert RowKeys(ks, k)[4 * p..4 * p + 4] == RowKeys(ks, k - 1)[4 * p..4 * p + 4];
    }
  }

  lemma {:induction false} KeyOffset(cols: seq<Column>, p: nat)
    requires p <= |cols| && forall i :: 0 <= i < p ==> cols[i].length == 4
    ensures Declared(cols, p) == 4 * p
    decreases p
  {
    if p > 0 {
      KeyOffset(cols, p - 1);
    }
  }

  lemma KeyColumns(schema: seq<Column>)
    requires forall c :: c in schema && c.primary ==> c.length == 4
    ensures KeyCount(schema) <= |PrimaryFirst(schema)|
    ensures forall i :: 0 <= i < KeyCount(schema) ==> PrimaryFirst(schema)[i].length == 4
  {
    var cols := PrimaryFirst(schema);
    SameColumns(schema);
    FilterHolds(schema, IsPrimary, |schema|);
    forall i | 0 <= i < KeyCount(schema) ensures cols[i].length == 4 {
      KeyColumnAt(schema, i);
      assert cols[i] in multiset(cols);
    }
  }

  /** Reading an int column, as get_column_value does. */
  function ReadInt(row: Bytes, start: nat, end: nat): int
    requires end == start + 4 <= |row|
  {
    BytesInt(row[start..end])
  }

  /** Whatever stands behind the converted key: where the parsed schema puts its p-th primary key
      column, the row has the p-th value of the key. */
  lemma KeyRoundTrip(key: Bytes, n: int, ks: seq<int>, schema: seq<Column>, p: nat, value: Bytes)
    requires KeyOf(key, n, ks) && p < |ks| == KeyCount(schema)
    requires forall c :: c in schema && c.primary ==> c.length == 4
    ensures 4 + 4 * |ks| <= |key|
    ensures var cols, row := PrimaryFirst(schema), ConvertedParts(key, |ks|) + value;
      && p < |cols| && cols[p] == Filter(schema, IsPrimary)[p]
      && var start, end := Declared(cols, p), Declared(cols, p + 1);
         end == start + 4 <= |row| && ReadInt(row, start, end) == ks[p]
  {
    var cols := PrimaryFirst(schema);
    KeyColumns(schema);
    KeyColumnAt(schema, p);
    TailLength(ks, |ks|);
    ConvertedPartsAre(key, n, ks, |ks|);
    KeyOffset(cols, p);
    KeyOffset(cols, p + 1);
    RowKeyAt(ks, p, |ks|);
    var row := RowKeys(ks, |ks|) + value;
    assert row[4 * p..4 * p + 4] == RowKeys(ks, |ks|)[4 * p..4 * p + 4];
    IntBytesRoundTrip(ks[p]);
  }

  // ---------------------------------------------------------------- decimals

  const TWO47 := 0x8000_0000_0000

  const TWO48 := 0x1_0000_0000_0000

  function Value6(b0: int, b1: int, b2: int, b3: int, b4: int, b5: int): int {
    ((((b0 * 256 + b1) * 256 + b2) * 256 + b3) * 256 + b4) * 256 + b5
  }

  /** Byte i of a number, counted from the low end. */
  function Digit(x: int, i: nat): Byte
    decreases i
  {
    if i == 0 then x % 256 else Digit(x / 256, i - 1)
  }

  /** The low six bytes of the integer part, most significant first with its top bit flipped. */
  function IntegerBytes(x: int): (t: Bytes)
    ensures |t| == 6
  {
    [FlipTop(Digit(x, 5)), Digit(x, 4), Digit(x, 3), Digit(x, 2), Digit(x, 1), Digit(x, 0)]
  }

  /** The low n bytes, least significant first. */
  function LowBytes(x: int, n: nat): (t: Bytes)
    ensures |t| == n
    decreases n
  {
    if n == 0 then [] else [x % 256] + LowBytes(x / 256, n - 1)
  }

  /** A decimal of some scale: the integer part, and as many bytes for the fraction as the scale. */
  function ScaledBytes(v: nat, scale: nat): (t: Bytes)
    ensures |t| == 6 + scale
  {
    var base := Values.Power100(scale);
    IntegerBytes(v / base) + LowBytes(v % base, scale)
  }

  /** For a decimal(15,2) column: one byte for the hundredths. */
  lemma ScaleOne(v: nat)
    ensures ScaledBytes(v, 1) == IntegerBytes(v / 100) + [v % 100]
  {
    assert Values.Power100(1) == 100;
    assert LowBytes(v % 100 / 256, 0) == [];
  }

  function Int8(b: int): int {
    if b < 128 then b else b - 256
  }

  /** The value of a byte as a signed 8-bit integer: the one of its residue from -128 to 127. */
  lemma Int8Is(b: Byte)
    ensures -128 <= Int8(b) < 128 && (Int8(b) - b) % 256 == 0
  {
  }

  function ComplementByte(b: int): Byte
    requires 0 <= b < 256
  {
    255 - b
  }

  function Complemented(t: Bytes): (r: Bytes)
    ensures |r| == |t| && forall i :: 0 <= i < |t| ==> r[i] == ComplementByte(t[i])
  {
    seq(|t|, (i: nat) requires i < |t| => ComplementByte(t[i]))
  }

  /** What seven bytes with the top bit set stand for. */
  function PositiveDecimal(t: Bytes): int
    requires |t| == 7
  {
    Value6(FlipTop(t[0]), t[1], t[2], t[3], t[4], t[5]) * 100 + Int8(t[6])
  }

  function Decimal(t: Bytes): int
    requires |t| == 7
  {
    if t[0] < 128 then -PositiveDecimal(Complemented(t)) else PositiveDecimal(t)
  }

  method DecodeDecimal(column: Bytes) returns (v: int)
    requires |column| == 7
    ensures v == Decimal(column)
  {
    var data := new Byte[7](i requires 0 <= i < 7 => column[i]);
    var negative := false;
    if data[0] < 128 {
      negative := true;
      for i := 0 to 7
        invariant forall k :: 0 <= k < i ==> data[k] == ComplementByte(column[k])
        invariant forall k :: i <= k < 7 ==> data[k] == column[k]
      {
        data[i] := ComplementByte(data[i]);
      }
      assert forall k :: 0 <= k < 7 ==> data[k] == Complemented(column)[k];
    }
    data[0] := FlipTop(data[0]);
    var ivalue := Value6(data[0], data[1], data[2], data[3], data[4], data[5]);
    v := ivalue * 100 + Int8(data[6]);
    if negative {
      v := -v;
    }
  }

  /** The encoder. The base must fit an int, so the scale is at most 4. A negative value complements
      the first seven bytes of the whole row built so far, and then writes its absolute value. */
  method EncodeDecimal(dest: array<Byte>, v: int, scale: nat, offset: nat) returns (n: nat)
    requires scale <= 4 && offset + 6 + scale <= dest.Length && (v < 0 ==> 7 <= dest.Length)
    modifies dest
    ensures n == 6 + scale && dest[offset..offset + n] == ScaledBytes(if v < 0 then -v else v, scale)
    ensures forall i :: 0 <= i < offset ==>
      dest[i] == if v < 0 && i < 7 then ComplementByte(old(dest[i])) else old(dest[i])
    ensures forall i :: offset + n <= i < dest.Length ==>
      dest[i] == if v < 0 && i < 7 then ComplementByte(old(dest[i])) else old(dest[i])
  {
    var t := ScaledBytes(if v < 0 then -v else v, scale);
    if v < 0 {
      for i := 0 to 7
        invariant forall k :: 0 <= k < i ==> dest[k] == ComplementByte(old(dest[k]))
        invariant forall k :: i <= k < dest.Length ==> dest[k] == old(dest[k])
      {
        dest[i] := ComplementByte(dest[i]);
      }
    }
    n := 6 + scale;
    forall i | 0 <= i < n {
      dest[offset + i] := t[i];
    }
  }

  // ---------------------------------------------------------------- decimals of any scale

  function LowValue(t: Bytes, i: nat): int
    requires i <= |t|
    decreases |t| - i
  {
    if i == |t| then 0 else Join(t[i], LowValue(t, i + 1))
  }

  function Join(lo: int, rest: int): int {
    lo + 256 * rest
  }

  function Power256(n: nat): (p: int)
    ensures p > 0
  {
    if n == 0 then 1 else 256 * Power256(n - 1)
  }

  lemma {:induction false} LowValueOf(x: int, n: nat, t: Bytes, i: nat)
    requires 0 <= x < Power256(n) && i + n == |t| && t[i..] == LowBytes(x, n)
    ensures LowValue(t, i) == x
    decreases n
  {
    if n > 0 {
      assert t[i] == t[i..][0] && t[i + 1..] == t[i..][1..];
      LowValueOf(x / 256, n - 1, t, i + 1);
    }
  }

  lemma {:induction false} PowersCompare(n: nat)
    ensures Values.Power100(n) <= Power256(n)
    decreases n
  {
    if n > 0 {
      PowersCompare(n - 1);
    }
  }

  /** The value of such bytes, read with their own scale. */
  function ScaledValue(t: Bytes, scale: nat): int
    requires |t| == 6 + scale
  {
    Value6(FlipTop(t[0]), t[1], t[2], t[3], t[4], t[5]) * Values.Power100(scale) + LowValue(t, 6)
  }

  lemma QuotientRange(v: int, base: int, bound: int)
    requires 0 <= v < base * bound && base > 0
    ensures 0 <= v / base < bound && v == v / base * base + v % base && 0 <= v % base < base
  {
    assert v / base * base <= v;
    LessFactor(v / base, bound, base);
  }

  lemma LessFactor(q: int, bound: int, base: int)
    requires q * base < bound * base && base > 0
    ensures q < bound
  {
  }

  lemma IntegerReadsBack(x: int)
    requires 0 <= x < TWO47
    ensures var t := IntegerBytes(x); t[0] >= 128 && Value6(FlipTop(t[0]), t[1], t[2], t[3], t[4], t[5]) == x
  {
    Digits6(x);
    SmallRemainder(x);
    Value6Range(Digit(x, 5), Digit(x, 4), Digit(x, 3), Digit(x, 2), Digit(x, 1), Digit(x, 0));
    FlipTwice(Digit(x, 5));
  }

  /** Whatever the scale, the encoding of a value in range loses nothing. */
  lemma ScaledRoundTrip(v: int, scale: nat)
    requires 0 <= v < Values.Power100(scale) * TWO47
    ensures ScaledValue(ScaledBytes(v, scale), scale) == v
  {
    var base, t := Values.Power100(scale), ScaledBytes(v, scale);
    QuotientRange(v, base, TWO47);
    IntegerReadsBack(v / base);
    PowersCompare(scale);
    assert t[6..] == LowBytes(v % base, scale);
    LowValueOf(v % base, scale, t, 6);
  }

  /** Six digits and the quotient above them. */
  lemma Horner(d0: int, d1: int, d2: int, d3: int, d4: int, d5: int, q6: int)
    ensures (((((q6 * 256 + d5) * 256 + d4) * 256 + d3) * 256 + d2) * 256 + d1) * 256 + d0
         == TWO48 * q6 + Value6(d5, d4, d3, d2, d1, d0)
  {
  }

  lemma Remainder48(x: int, q: int, r: int)
    requires x == TWO48 * q + r && 0 <= r < TWO48
    ensures x % TWO48 == r
  {
  }

  lemma Quotient(x: int)
    ensures x == x / 256 * 256 + x % 256
  {
  }

  lemma Digits6(x: int)
    requires x >= 0
    ensures Value6(Digit(x, 5), Digit(x, 4), Digit(x, 3), Digit(x, 2), Digit(x, 1), Digit(x, 0)) == x % TWO48
  {
    var q1 := x / 256;
    var q2 := q1 / 256;
    var q3 := q2 / 256;
    var q4 := q3 / 256;
    var q5 := q4 / 256;
    DigitIs(x, 1);
    DigitIs(x, 2);
    DigitIs(x, 3);
    DigitIs(x, 4);
    DigitIs(x, 5);
    Quotient(x);
    Quotient(q1);
    Quotient(q2);
    Quotient(q3);
    Quotient(q4);
    Quotient(q5);
    Horner(x % 256, q1 % 256, q2 % 256, q3 % 256, q4 % 256, q5 % 256, q5 / 256);
    var r := Value6(q5 % 256, q4 % 256, q3 % 256, q2 % 256, q1 % 256, x % 256);
    Value6Range(q5 % 256, q4 % 256, q3 % 256, q2 % 256, q1 % 256, x % 256);
    Remainder48(x, q5 / 256, r);
  }

  function Divided(x: int, i: nat): int
    decreases i
  {
    if i == 0 then x else Divided(x, i - 1) / 256
  }

  lemma {:induction false} DigitIs(x: int, i: nat)
    ensures Digit(x, i) == Divided(x, i) % 256
    decreases i
  {
    if i > 0 {
      DigitIs(x / 256, i - 1);
      DividedShift(x, i - 1);
    }
  }

  lemma {:induction false} DividedShift(x: int, i: nat)
    ensures Divided(x / 256, i) == Divided(x, i + 1)
    decreases i
  {
    if i > 0 {
      DividedShift(x, i - 1);
    }
  }

  lemma Value6Range(b0: int, b1: int, b2: int, b3: int, b4: int, b5: int)
    requires 0 <= b0 < 256 && 0 <= b1 < 256 && 0 <= b2 < 256 && 0 <= b3 < 256 && 0 <= b4 < 256 && 0 <= b5 < 256
    ensures 0 <= Value6(b0, b1, b2, b3, b4, b5) < TWO48
    ensures Value6(b0, b1, b2, b3, b4, b5) < TWO47 <==> b0 < 128
  {
  }

  lemma PositiveRange(t: Bytes)
    requires |t| == 7 && t[0] >= 128
    ensures 0 <= PositiveDecimal(t) - Int8(t[6]) <= (TWO47 - 1) * 100
  {
    Value6Range(FlipTop(t[0]), t[1], t[2], t[3], t[4], t[5]);
  }

  lemma DecimalRange(t: Bytes)
    requires |t| == 7 && t[6] < 100
    ensures -100 * TWO47 < Decimal(t) < 100 * TWO47
  {
    if t[0] < 128 {
      PositiveRange(Complemented(t));
    } else {
      PositiveRange(t);
    }
  }

  lemma SmallRemainder(x: int)
    requires 0 <= x < TWO47
    ensures x % TWO48 == x
  {
    Remainder48(x, 0, x);
  }

  lemma PositiveOf(v: int)
    requires 0 <= v < 100 * TWO47
    ensures ScaledBytes(v, 1)[0] >= 128 && PositiveDecimal(ScaledBytes(v, 1)) == v
  {
    ScaleOne(v);
    assert 0 <= v / 100 < TWO47 && v == v / 100 * 100 + v % 100;
    IntegerReadsBack(v / 100);
  }

  /** A decimal reads back, and its bytewise complement reads as the negative, over the whole range
      of the format. */
  lemma DecimalRoundTrip(v: int)
    requires 0 <= v < 100 * TWO47
    ensures Decimal(ScaledBytes(v, 1)) == v
    ensures Decimal(Complemented(ScaledBytes(v, 1))) == -v
  {
    PositiveOf(v);
    assert Complemented(Complemented(ScaledBytes(v, 1))) == ScaledBytes(v, 1);
  }

  /** What the encoder makes of any 64-bit value of scale 1: the decoder reads it back if and only if
      the value is not negative and in the range of the format. */
  lemma DecimalExact(v: int)
    ensures Decimal(ScaledBytes(if v < 0 then -v else v, 1)) == v <==> 0 <= v < 100 * TWO47
  {
    var a := if v < 0 then -v else v;
    if a < 100 * TWO47 {
      DecimalRoundTrip(a);
    } else {
      ScaleOne(a);
      DecimalRange(ScaledBytes(a, 1));
    }
  }

  // ---------------------------------------------------------------- the order of decimals

  /** A byte string as a number, most significant byte first. */
  function BigEndian(t: Bytes): (n: int)
    ensures 0 <= n < Power256(|t|)
  {
    if t == [] then 0 else
      HeadRange(t[0], BigEndian(t[1..]), Power256(|t| - 1));
      t[0] * Power256(|t| - 1) + BigEndian(t[1..])
  }

  lemma HeadRange(b: int, rest: int, p: int)
    requires 0 <= b < 256 && 0 <= rest < p
    ensures 0 <= b * p + rest < 256 * p
  {
  }

  lemma HeadDecides(a: int, b: int, x: int, y: int, p: int)
    requires 0 <= x < p && 0 <= y < p
    ensures a * p + x < b * p + y <==> a < b || (a == b && x < y)
  {
    if a < b {
      assert (a + 1) * p <= b * p;
    } else if b < a {
      assert (b + 1) * p <= a * p;
    }
  }

  /** For strings of one length, byte order is the order of the numbers. */
  lemma {:induction false} LessIsBigEndian(a: Bytes, b: Bytes)
    requires |a| == |b|
    ensures Less(a, b) <==> BigEndian(a) < BigEndian(b)
    decreases |a|
  {
    if a != [] {
      LessIsBigEndian(a[1..], b[1..]);
      HeadDecides(a[0], b[0], BigEndian(a[1..]), BigEndian(b[1..]), Power256(|a| - 1));
    }
  }

  lemma Seven(t: Bytes)
    requires |t| == 7
    ensures BigEndian(t) == Value6(t[0], t[1], t[2], t[3], t[4], t[5]) * 256 + t[6]
  {
    var t1 := t[1..];
    var t2 := t1[1..];
    var t3 := t2[1..];
    var t4 := t3[1..];
    var t5 := t4[1..];
    var t6 := t5[1..];
    assert Power256(0) == 1 && Power256(1) == 256 && Power256(2) == 65536 && Power256(3) == 0x100_0000;
    assert Power256(4) == 0x1_0000_0000 && Power256(5) == 0x100_0000_0000 && Power256(6) == TWO48;
    assert t6[1..] == [] && BigEndian(t6) == t[6];
    assert BigEndian(t5) == t[5] * 256 + BigEndian(t6);
    assert BigEndian(t4) == t[4] * 65536 + BigEndian(t5);
    assert BigEndian(t3) == t[3] * 0x100_0000 + BigEndian(t4);
    assert BigEndian(t2) == t[2] * 0x1_0000_0000 + BigEndian(t3);
    assert BigEndian(t1) == t[1] * 0x100_0000_0000 + BigEndian(t2);
  }

  lemma DecimalNumber(v: int)
    requires 0 <= v < 100 * TWO47
    ensures BigEndian(ScaledBytes(v, 1)) == (v / 100 + TWO47) * 256 + v % 100
  {
    var t := ScaledBytes(v, 1);
    ScaleOne(v);
    Seven(t);
    IntegerReadsBack(v / 100);
    assert t[0] >= 128;
  }

  /** Decimals that are not negative sort like their bytes. */
  lemma DecimalOrder(u: int, v: int)
    requires 0 <= u < 100 * TWO47 && 0 <= v < 100 * TWO47
    ensures Less(ScaledBytes(u, 1), ScaledBytes(v, 1)) <==> u < v
  {
    LessIsBigEndian(ScaledBytes(u, 1), ScaledBytes(v, 1));
    DecimalNumber(u);
    DecimalNumber(v);
    HundredsDecide(u, u / 100, u % 100, v, v / 100, v % 100);
  }

  lemma HundredsDecide(u: int, a: int, x: int, v: int, b: int, y: int)
    requires u == 100 * a + x && v == 100 * b + y && 0 <= x < 100 && 0 <= y < 100
    ensures (a + TWO47) * 256 + x < (b + TWO47) * 256 + y <==> u < v
  {
  }
}
