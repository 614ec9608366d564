/** Base64 (section 4 of RFC 4648): the encoder of httplib.h and the decoder of worker.cc. Both
    shift their input through an int; `keep` says what that int keeps of each new value. */
module Base64 {
  import opened RowData
  import opened Sequences

  datatype Result = Ok(bytes: seq<Byte>) | InvalidCharacter

  // ---------------------------------------------------------------- the two alphabets

  type Sextet = d: int | 0 <= d < 64

  function Letter(d: Sextet): char {
    if d < 26 then 'A' + d as char
    else if d < 52 then 'a' + (d - 26) as char
    else if d < 62 then '0' + (d - 52) as char
    else if d == 62 then '+' else '/'
  }

  /** The decode table; -1 for a character outside the alphabet. */
  function DigitOf(c: char): (d: int)
    ensures -1 <= d < 64
  {
    if 'A' <= c <= 'Z' then c as int - 'A' as int
    else if 'a' <= c <= 'z' then c as int - 'a' as int + 26
    else if '0' <= c <= '9' then c as int - '0' as int + 52
    else if c == '+' then 62 else if c == '/' then 63 else -1
  }

  predicate IsSpace(c: char) {
    c == ' ' || '\t' <= c <= '\r'
  }

  predicate NotSpace(c: char) {
    !IsSpace(c)
  }

  lemma LetterRoundTrip(d: Sextet)
    ensures DigitOf(Letter(d)) == d && !IsSpace(Letter(d)) && Letter(d) != '='
  {
  }

  const UPPER := "ABCDEFGHIJKLMNOPQRSTUVWXYZ"
  const LOWER := "abcdefghijklmnopqrstuvwxyz"
  const NUMERALS := "0123456789"

  /** The alphabet as section 4 of RFC 4648 prints it. */
  const ALPHABET := UPPER + LOWER + NUMERALS + "+/"

  lemma UpperIs(d: Sextet)
    requires d < 26
    ensures |UPPER| == 26 && Letter(d) == UPPER[d]
  {
  }

  lemma LowerIs(d: Sextet)
    requires 26 <= d < 52
    ensures |LOWER| == 26 && Letter(d) == LOWER[d - 26]
  {
  }

  lemma NumeralIs(d: Sextet)
    requires 52 <= d < 62
    ensures |NUMERALS| == 10 && Letter(d) == NUMERALS[d - 52]
  {
  }

  lemma AlphabetIs(d: Sextet)
    ensures |ALPHABET| == 64 && Letter(d) == ALPHABET[d]
  {
    UpperIs(if d < 26 then d else 0);
    LowerIs(if 26 <= d < 52 then d else 26);
    NumeralIs(if 52 <= d < 62 then d else 52);
  }

  /** The decode table knows exactly these letters. */
  lemma DigitOfLetter(c: char)
    ensures DigitOf(c) == -1 <==> forall d: Sextet :: Letter(d) != c
    ensures DigitOf(c) != -1 ==> Letter(DigitOf(c)) == c
  {
    if DigitOf(c) == -1 {
      forall d: Sextet ensures Letter(d) != c {
        LetterRoundTrip(d);
      }
    } else {
      var d: Sextet := DigitOf(c);
      assert Letter(d) as int == c as int;
    }
  }

  /** What isspace takes for white space: tab, newline, vertical tab, form feed, carriage return, blank. */
  lemma SpacesAre(c: char)
    ensures IsSpace(c) <==> c as int in {9, 10, 11, 12, 13, 32}
  {
  }

  // ---------------------------------------------------------------- bytes and sextets

  /** Byte i of s, 0 past the end. */
  function At(s: seq<Byte>, i: nat): Byte {
    if i < |s| then s[i] else 0
  }

  /** Sextet k of a byte string: bits 6k to 6k+5. */
  function SextetAt(s: seq<Byte>, k: nat): Sextet {
    var g := 3 * (k / 4);
    if k % 4 == 0 then First(At(s, g))
    else if k % 4 == 1 then Second(At(s, g), At(s, g + 1))
    else if k % 4 == 2 then Third(At(s, g + 1), At(s, g + 2))
    else At(s, g + 2) % 64
  }

  function First(a: int): Sextet
    requires 0 <= a < 256
  {
    a / 4
  }

  function Second(a: int, b: int): Sextet
    requires 0 <= b < 256
  {
    a % 4 * 16 + b / 16
  }

  function Third(b: int, c: int): Sextet
    requires 0 <= c < 256
  {
    b % 16 * 4 + c / 64
  }

  /** As many sextets as it takes. */
  function SextetCount(n: nat): nat {
    (4 * n + 2) / 3
  }

  function Sextets(s: seq<Byte>): (ds: seq<Sextet>)
    ensures |ds| == SextetCount(|s|) && forall k :: 0 <= k < |ds| ==> ds[k] == SextetAt(s, k)
  {
    seq(SextetCount(|s|), (k: nat) => SextetAt(s, k))
  }

  /** Byte k of a sextet string: bits 8k to 8k+7. */
  function ByteAt(ds: seq<Sextet>, k: nat): Byte
    requires k < |ds| * 3 / 4
  {
    var g := 4 * (k / 3);
    if k % 3 == 0 then High(ds[g], ds[g + 1])
    else if k % 3 == 1 then Middle(ds[g + 1], ds[g + 2])
    else Low(ds[g + 2], ds[g + 3])
  }

  function High(x: int, y: int): Byte
    requires 0 <= x < 64 && 0 <= y < 64
  {
    x * 4 + y / 16
  }

  function Middle(y: int, z: int): Byte
    requires 0 <= y < 64 && 0 <= z < 64
  {
    y % 16 * 16 + z / 4
  }

  function Low(z: int, w: int): Byte
    requires 0 <= z < 64 && 0 <= w < 64
  {
    z % 4 * 64 + w
  }

  /** The whole bytes of a sextet string. */
  function Bytes(ds: seq<Sextet>): (s: seq<Byte>)
    ensures |s| == |ds| * 3 / 4 && forall k :: 0 <= k < |s| ==> s[k] == ByteAt(ds, k)
  {
    seq(|ds| * 3 / 4, (k: nat) requires k < |ds| * 3 / 4 => ByteAt(ds, k))
  }

  lemma Counts(n: nat, q: nat, r: nat)
    requires 3 * q + r < n && r < 3
    ensures 4 * q + r + 1 < SextetCount(n) && SextetCount(n) * 3 / 4 == n
  {
  }

  lemma ByteOf(ds: seq<Sextet>, q: nat, r: nat)
    requires r < 3 && 3 * q + r < |ds| * 3 / 4 && 4 * q + r + 1 < |ds|
    ensures ByteAt(ds, 3 * q + r) == if r == 0 then High(ds[4 * q], ds[4 * q + 1])
      else if r == 1 then Middle(ds[4 * q + 1], ds[4 * q + 2]) else Low(ds[4 * q + 2], ds[4 * q + 3])
  {
    assert (3 * q + r) / 3 == q && (3 * q + r) % 3 == r;
  }

  lemma ByteIs(ds: seq<Sextet>, q: nat, r: nat, a: Byte, b: Byte, c: Byte)
    requires r < 3 && 3 * q + r < |ds| * 3 / 4 && 4 * q + r + 1 < |ds|
    requires ds[4 * q] == First(a) && ds[4 * q + 1] == Second(a, b)
    requires r >= 1 ==> ds[4 * q + 2] == Third(b, c)
    requires r == 2 ==> ds[4 * q + 3] == c % 64
    ensures ByteAt(ds, 3 * q + r) == if r == 0 then a else if r == 1 then b else c
  {
    ByteOf(ds, q, r);
    Rejoin(a, b, c);
  }

  lemma GroupAt(s: seq<Byte>, q: nat, r: nat)
    requires r < 3 && 4 * q + r + 1 < |Sextets(s)|
    ensures var a, b, c, ds := At(s, 3 * q), At(s, 3 * q + 1), At(s, 3 * q + 2), Sextets(s);
      && ds[4 * q] == First(a) && ds[4 * q + 1] == Second(a, b)
      && (r >= 1 ==> ds[4 * q + 2] == Third(b, c)) && (r == 2 ==> ds[4 * q + 3] == c % 64)
  {
    GroupIs(s, q);
  }

  lemma ByteRoundTrip(s: seq<Byte>, q: nat, r: nat)
    requires 3 * q + r < |s| && r < 3
    requires 3 * q + r < |Sextets(s)| * 3 / 4 && 4 * q + r + 1 < |Sextets(s)|
    ensures ByteAt(Sextets(s), 3 * q + r) == s[3 * q + r]
  {
    GroupAt(s, q, r);
    ByteIs(Sextets(s), q, r, At(s, 3 * q), At(s, 3 * q + 1), At(s, 3 * q + 2));
  }

  lemma ByteBack(s: seq<Byte>, k: nat)
    requires k < |s|
    ensures |Bytes(Sextets(s))| == |s| && Bytes(Sextets(s))[k] == s[k]
  {
    assert 3 * (k / 3) + k % 3 == k;
    Counts(|s|, k / 3, k % 3);
    ByteRoundTrip(s, k / 3, k % 3);
  }

  lemma GroupIs(s: seq<Byte>, q: nat)
    ensures var a, b, c := At(s, 3 * q), At(s, 3 * q + 1), At(s, 3 * q + 2);
      && SextetAt(s, 4 * q) == First(a) && SextetAt(s, 4 * q + 1) == Second(a, b)
      && SextetAt(s, 4 * q + 2) == Third(b, c) && SextetAt(s, 4 * q + 3) == c % 64
  {
    Split4(4 * q, q, 0);
    Split4(4 * q + 1, q, 1);
    Split4(4 * q + 2, q, 2);
    Split4(4 * q + 3, q, 3);
  }

  lemma Rejoin(a: Byte, b: Byte, c: Byte)
    ensures High(First(a), Second(a, b)) == a
    ensures Middle(Second(a, b), Third(b, c)) == b
    ensures Low(Third(b, c), c % 64) == c
  {
  }

  /** No bit is lost between the two views. */
  lemma SextetsRoundTrip(s: seq<Byte>)
    ensures Bytes(Sextets(s)) == s
  {
    var t := Bytes(Sextets(s));
    if s != [] {
      ByteBack(s, 0);
    }
    forall k | 0 <= k < |s| ensures t[k] == s[k] {
      ByteBack(s, k);
    }
  }

  // ---------------------------------------------------------------- the accumulator

  /** A value that still has its lowest 12 bits. */
  ghost predicate KeepsLow(keep: int -> int) {
    forall x :: keep(x) % 4096 == x % 4096
  }

  /** A 32-bit two's complement int. */
  function Wrap32(x: int): int {
    (x + 0x8000_0000) % 0x1_0000_0000 - 0x8000_0000
  }

  lemma Wrap32KeepsLow()
    ensures KeepsLow(Wrap32) && KeepsLow(x => x)
  {
    forall x: int ensures Wrap32(x) % 4096 == x % 4096 {
      var q := (x + 0x8000_0000) / 0x1_0000_0000;
      assert Wrap32(x) == x - 0x1_0000_0000 * q;
      LowBits(x, Wrap32(x), 0x10_0000 * q);
    }
  }

  lemma LowBits(x: int, y: int, m: int)
    requires x == y + 4096 * m
    ensures x % 4096 == y % 4096
  {
  }

  // ---------------------------------------------------------------- groups as numbers

  function Number64(x: int, y: int, z: int, w: int): int {
    ((x * 64 + y) * 64 + z) * 64 + w
  }

  function Number256(a: int, b: int, c: int): int {
    (a * 256 + b) * 256 + c
  }

  lemma SameNumber(a: int, b: int, c: int)
    requires 0 <= a < 256 && 0 <= b < 256 && 0 <= c < 256
    ensures Number64(First(a), Second(a, b), Third(b, c), c % 64) == Number256(a, b, c)
  {
    assert a == a / 4 * 4 + a % 4 && b == b / 16 * 16 + b % 16 && c == c / 64 * 64 + c % 64;
  }

  /** Four sextets are the 24-bit number that the three bytes are, most significant first; bytes past
      the end count as 0. */
  lemma GroupNumber(s: seq<Byte>, q: nat)
    ensures Number64(SextetAt(s, 4 * q), SextetAt(s, 4 * q + 1), SextetAt(s, 4 * q + 2), SextetAt(s, 4 * q + 3))
         == Number256(At(s, 3 * q), At(s, 3 * q + 1), At(s, 3 * q + 2))
  {
    GroupIs(s, q);
    SameNumber(At(s, 3 * q), At(s, 3 * q + 1), At(s, 3 * q + 2));
  }

  lemma NumberBack(x: Sextet, y: Sextet, z: Sextet, w: Sextet)
    ensures Number256(High(x, y), Middle(y, z), Low(z, w)) == Number64(x, y, z, w)
  {
    assert y == y / 16 * 16 + y % 16 && z == z / 4 * 4 + z % 4;
  }

  /** And back, for any sextets. */
  lemma ByteNumber(ds: seq<Sextet>, q: nat)
    requires 4 * q + 4 <= |ds|
    ensures 3 * q + 2 < |Bytes(ds)|
    ensures Number256(Bytes(ds)[3 * q], Bytes(ds)[3 * q + 1], Bytes(ds)[3 * q + 2])
         == Number64(ds[4 * q], ds[4 * q + 1], ds[4 * q + 2], ds[4 * q + 3])
  {
    WholeGroup(|ds|, q);
    ByteOf(ds, q, 0);
    ByteOf(ds, q, 1);
    ByteOf(ds, q, 2);
    NumberBack(ds[4 * q], ds[4 * q + 1], ds[4 * q + 2], ds[4 * q + 3]);
  }

  lemma WholeGroup(n: nat, q: nat)
    requires 4 * q + 4 <= n
    ensures 3 * q + 2 < n * 3 / 4
  {
  }

  // ---------------------------------------------------------------- encoding

  function Letters(ds: seq<Sextet>): (t: string)
    ensures |t| == |ds| && forall k :: 0 <= k < |t| ==> t[k] == Letter(ds[k])
  {
    seq(|ds|, (k: nat) requires k < |ds| => Letter(ds[k]))
  }

  function Pads(n: nat): (t: string)
    ensures |t| == n
  {
    if n == 0 then "" else Pads(n - 1) + ['=']
  }

  /** '=' up to a multiple of four. */
  function Padded(t: string): string {
    t + Pads((4 - |t| % 4) % 4)
  }

  function EncodeText(s: seq<Byte>): string {
    Padded(Letters(Sextets(s)))
  }

  /** The bits of the last byte that still wait in the accumulator after i bytes. */
  predicate Waiting(s: seq<Byte>, i: nat, val: int)
    requires i <= |s|
  {
    && (i % 3 == 1 ==> val % 4 == s[i - 1] % 4)
    && (i % 3 == 2 ==> val % 16 == s[i - 1] % 16)
  }

  /** Whole sextets in i bytes. */
  function Full(i: nat): nat {
    4 * (i / 3) + i % 3
  }

  /** The letters of the first n sextets. */
  predicate Written(out: string, s: seq<Byte>, n: nat) {
    |out| == n && forall k :: 0 <= k < n ==> out[k] == Letter(SextetAt(s, k))
  }

  /** Arithmetic shift to the right. */
  function Shift(x: int, b: int): int {
    x / (if b == 0 then 1 else if b == 2 then 4 else if b == 4 then 16 else 64)
  }

  /** The inner loop: write sextets as long as a whole one is there. */
  method Drain(s: seq<Byte>, i: nat, val: int, before: string) returns (out: string, valb: int)
    requires i < |s| && Written(before, s, Full(i))
    requires Shift(val, 2 * (i % 3) + 2) % 64 == SextetAt(s, Full(i))
    requires i % 3 == 2 ==> Shift(val, 0) % 64 == SextetAt(s, Full(i) + 1)
    ensures Written(out, s, Full(i + 1)) && valb == 2 * ((i + 1) % 3) - 6
  {
    out, valb := before, 2 * (i % 3) + 2;
    while valb >= 0
      invariant valb == 2 * (i % 3) + 2 - 6 * (|out| - |before|)
      invariant Written(out, s, |out|) && |before| <= |out| <= |before| + (if i % 3 == 2 then 2 else 1)
    {
      out := out + [Letter(Shift(val, valb) % 64)];
      valb := valb - 6;
    }
  }

  method Pad(text: string) returns (out: string)
    ensures out == Padded(text)
  {
    out := text;
    ghost var n := 0;
    while |out| % 4 != 0
      invariant 0 <= n <= (4 - |text| % 4) % 4 && out == text + Pads(n)
      decreases 4 - n
    {
      assert text + Pads(n + 1) == text + Pads(n) + ['='];
      out, n := out + ['='], n + 1;
    }
  }

  method Encode(s: seq<Byte>, keep: int -> int) returns (out: string)
    requires KeepsLow(keep)
    ensures out == EncodeText(s)
  {
    out := "";
    var val, valb := 0, -6;
    for i := 0 to |s|
      invariant valb == 2 * (i % 3) - 6 && Waiting(s, i, val) && Written(out, s, Full(i))
    {
      ghost var was := val;
      val := keep(val * 256 + s[i]);
      EncodeStep(s, i, was, val);
      out, valb := Drain(s, i, val, out);
    }
    if valb > -6 {
      EncodeLast(s, val, keep(val * 256));
      out := out + [Letter(Shift(keep(val * 256), valb + 8) % 64)];
    }
    assert Written(out, s, SextetCount(|s|));
    assert out == Letters(Sextets(s));
    out := Pad(out);
  }

  lemma EncodeStep(s: seq<Byte>, i: nat, was: int, val: int)
    requires i < |s| && Waiting(s, i, was) && val % 4096 == (was * 256 + s[i]) % 4096
    ensures Waiting(s, i + 1, val)
    ensures Shift(val, 2 * (i % 3) + 2) % 64 == SextetAt(s, Full(i))
    ensures i % 3 == 2 ==> Shift(val, 0) % 64 == SextetAt(s, Full(i) + 1)
  {
    var q, k := i / 3, Full(i);
    assert i == 3 * q + i % 3;
    if i % 3 == 0 {
      assert k == 4 * q && 3 * (k / 4) == i;
      FirstBits(was, val, s[i]);
    } else if i % 3 == 1 {
      assert k == 4 * q + 1 && 3 * (k / 4) == i - 1;
      SecondBits(was, val, s[i - 1], s[i]);
    } else {
      assert k == 4 * q + 2 && 3 * (k / 4) == 3 * ((k + 1) / 4) == i - 2;
      ThirdBits(was, val, s[i - 1], s[i]);
    }
  }

  lemma Split4(x: int, q: int, r: int)
    requires x == 4 * q + r && 0 <= r < 4
    ensures x / 4 == q && x % 4 == r
  {
  }

  lemma Split16(x: int, q: int, r: int)
    requires x == 16 * q + r && 0 <= r < 16
    ensures x / 16 == q && x % 16 == r
  {
  }

  lemma Split64(x: int, q: int, r: int)
    requires x == 64 * q + r && 0 <= r < 64
    ensures x / 64 == q && x % 64 == r
  {
  }

  lemma Split256(x: int, q: int, r: int)
    requires x == 256 * q + r && 0 <= r < 256
    ensures x % 256 == r
  {
  }

  lemma FirstBits(was: int, val: int, a: int)
    requires 0 <= a < 256 && val % 4096 == (was * 256 + a) % 4096
    ensures val / 4 % 64 == First(a) && val % 4 == a % 4
  {
    var m := SameLow(val, was * 256 + a);
    var t := was + 16 * m;
    Split4(val, 64 * t + First(a), a % 4);
    Split64(64 * t + First(a), t, First(a));
  }

  lemma SecondBits(was: int, val: int, a: int, b: int)
    requires 0 <= b < 256 && was % 4 == a % 4 && val % 4096 == (was * 256 + b) % 4096
    ensures val / 16 % 64 == Second(a, b) && val % 16 == b % 16
  {
    var m := SameLow(val, was * 256 + b);
    var t := was / 4 + 4 * m;
    Split16(val, 64 * t + Second(a, b), b % 16);
    Split64(64 * t + Second(a, b), t, Second(a, b));
  }

  lemma ThirdBits(was: int, val: int, b: int, c: int)
    requires 0 <= c < 256 && was % 16 == b % 16 && val % 4096 == (was * 256 + c) % 4096
    ensures val / 64 % 64 == Third(b, c) && val % 64 == c % 64
  {
    var m := SameLow(val, was * 256 + c);
    var t := was / 16 + m;
    Split64(val, 64 * t + Third(b, c), c % 64);
    Split64(64 * t + Third(b, c), t, Third(b, c));
  }

  lemma SameLow(x: int, y: int) returns (m: int)
    requires x % 4096 == y % 4096
    ensures x == y + 4096 * m
  {
    m := x / 4096 - y / 4096;
  }

  lemma EncodeLast(s: seq<Byte>, val: int, shifted: int)
    requires |s| % 3 != 0 && Waiting(s, |s|, val) && shifted % 4096 == val * 256 % 4096
    ensures Shift(shifted, 2 * (|s| % 3) + 2) % 64 == SextetAt(s, Full(|s|))
  {
    var q, k := |s| / 3, Full(|s|);
    assert |s| == 3 * q + |s| % 3;
    if |s| % 3 == 1 {
      assert k == 4 * q + 1 && 3 * (k / 4) == |s| - 1;
      SecondBits(val, shifted, s[|s| - 1], 0);
    } else {
      assert k == 4 * q + 2 && 3 * (k / 4) == |s| - 2;
      ThirdBits(val, shifted, s[|s| - 1], 0);
    }
  }

  // ---------------------------------------------------------------- decoding

  /** The sextets read so far; after '=' nothing more is read. */
  datatype Reader = Reading(ds: seq<Sextet>) | Done(ds: seq<Sextet>) | Invalid

  function ReadChar(r: Reader, c: char): Reader {
    if !r.Reading? || IsSpace(c) then r
    else if c == '=' then Done(r.ds)
    else if DigitOf(c) == -1 then Invalid
    else Reading(r.ds + [DigitOf(c)])
  }

  function Read(text: string, k: nat): Reader
    requires k <= |text|
  {
    if k == 0 then Reading([]) else ReadChar(Read(text, k - 1), text[k - 1])
  }

  function ReadAll(text: string): Reader {
    Read(text, |text|)
  }

  function DecodeText(text: string): Result {
    var r := ReadAll(text);
    if r.Invalid? then InvalidCharacter else Ok(Bytes(r.ds))
  }

  /** The bits of the last sextet that still wait in the accumulator. */
  predicate Pending(ds: seq<Sextet>, buffer: int) {
    var m := |ds|;
    && (m % 4 == 1 ==> buffer % 64 == ds[m - 1])
    && (m % 4 == 2 ==> buffer % 16 == ds[m - 1] % 16)
    && (m % 4 == 3 ==> buffer % 4 == ds[m - 1] % 4)
  }

  /** Bits left over after m sextets. */
  function Left(m: nat): nat {
    if m % 4 == 0 then 0 else if m % 4 == 1 then 6 else if m % 4 == 2 then 4 else 2
  }

  lemma NextLeft(m: nat)
    ensures Left(m + 1) == if m % 4 == 0 then 6 else Left(m) - 2
    ensures m % 4 == 0 <==> Left(m) == 0
  {
  }

  method Decode(text: string, keep: int -> int) returns (r: Result)
    requires KeepsLow(keep)
    ensures r == DecodeText(text)
  {
    var output: seq<Byte> := [];
    var buffer, bits := 0, 0;
    ghost var ds: seq<Sextet> := [];
    var i := 0;
    while i < |text|
      invariant 0 <= i <= |text| && Read(text, i) == Reading(ds)
      invariant bits == Left(|ds|) && Pending(ds, buffer) && output == Bytes(ds)
    {
      var c := text[i];
      i := i + 1;
      if IsSpace(c) {
        continue;
      }
      if c == '=' {
        DoneStays(text, i);
        return Ok(output);
      }
      if DigitOf(c) == -1 {
        DoneStays(text, i);
        return InvalidCharacter;
      }
      buffer, bits, output := Feed(ds, buffer, bits, output, DigitOf(c), keep);
      ds := ds + [DigitOf(c)];
    }
    r := Ok(output);
  }

  /** One sextet goes in, and a byte comes out as soon as eight bits are there. */
  method Feed(ghost ds: seq<Sextet>, buffer: int, bits: nat, output: seq<Byte>, d: Sextet, keep: int -> int)
    returns (newBuffer: int, newBits: nat, newOutput: seq<Byte>)
    requires KeepsLow(keep) && bits == Left(|ds|) && Pending(ds, buffer) && output == Bytes(ds)
    ensures newBits == Left(|ds + [d]|) && Pending(ds + [d], newBuffer) && newOutput == Bytes(ds + [d])
  {
    newBuffer, newBits, newOutput := keep(buffer * 64 + d), bits + 6, output;
    DecodeStep(ds, buffer, d, newBuffer);
    BytesSnoc(ds, d);
    NextLeft(|ds|);
    if newBits >= 8 {
      newBits := newBits - 8;
      newOutput := newOutput + [Shift(newBuffer, newBits) % 256];
    }
  }

  /** The byte that sextet d completes. */
  function Completed(ds: seq<Sextet>, d: Sextet): Byte
    requires |ds| % 4 != 0
  {
    var x := ds[|ds| - 1];
    if |ds| % 4 == 1 then High(x, d) else if |ds| % 4 == 2 then Middle(x, d) else Low(x, d)
  }

  lemma BytesSnoc(ds: seq<Sextet>, d: Sextet)
    ensures Bytes(ds + [d]) == if |ds| % 4 == 0 then Bytes(ds) else Bytes(ds) + [Completed(ds, d)]
  {
    var es, n := ds + [d], |ds| * 3 / 4;
    NextCount(|ds|);
    forall k | 0 <= k < n ensures ByteAt(es, k) == ByteAt(ds, k) {
      ByteKept(ds, d, k);
    }
    if |ds| % 4 == 0 {
      assert Bytes(es) == Bytes(ds);
    } else {
      LastByte(ds, d);
      assert Bytes(es) == Bytes(ds) + [Completed(ds, d)];
    }
  }

  lemma NextCount(m: nat)
    ensures (m + 1) * 3 / 4 == m * 3 / 4 + if m % 4 == 0 then 0 else 1
    ensures m % 4 != 0 ==> 4 * (m * 3 / 4 / 3) == m - m % 4 && m * 3 / 4 % 3 == m % 4 - 1
  {
    var q, r := m / 4, m % 4;
    assert m == 4 * q + r;
    assert m * 3 / 4 == 3 * q + if r == 0 then 0 else r - 1;
  }

  lemma ByteKept(ds: seq<Sextet>, d: Sextet, k: nat)
    requires k < |ds| * 3 / 4 <= |ds + [d]| * 3 / 4
    ensures ByteAt(ds + [d], k) == ByteAt(ds, k)
  {
  }

  lemma LastByte(ds: seq<Sextet>, d: Sextet)
    requires |ds| % 4 != 0 && |ds| * 3 / 4 < |ds + [d]| * 3 / 4
    ensures ByteAt(ds + [d], |ds| * 3 / 4) == Completed(ds, d)
  {
    NextCount(|ds|);
  }

  lemma DecodeStep(ds: seq<Sextet>, was: int, d: Sextet, buffer: int)
    requires Pending(ds, was) && buffer % 4096 == (was * 64 + d) % 4096
    ensures Pending(ds + [d], buffer)
    ensures |ds| % 4 != 0 ==> Shift(buffer, Left(|ds|) - 2) % 256 == Completed(ds, d)
  {
    var m := |ds|;
    if m % 4 == 0 {
      NewBits(was, d, buffer);
    } else if m % 4 == 1 {
      HighBits(was, ds[m - 1], d, buffer);
    } else if m % 4 == 2 {
      MiddleBits(was, ds[m - 1], d, buffer);
    } else {
      LowestBits(was, ds[m - 1], d, buffer);
    }
  }

  lemma NewBits(was: int, x: int, buffer: int)
    requires 0 <= x < 64 && buffer % 4096 == (was * 64 + x) % 4096
    ensures buffer % 64 == x
  {
    var m := SameLow(buffer, was * 64 + x);
    Split64(buffer, was + 64 * m, x);
  }

  lemma HighBits(was: int, x: int, y: int, buffer: int)
    requires 0 <= x < 64 && 0 <= y < 64 && was % 64 == x && buffer % 4096 == (was * 64 + y) % 4096
    ensures buffer / 16 % 256 == High(x, y) && buffer % 16 == y % 16
  {
    var m := SameLow(buffer, was * 64 + y);
    var t := was / 64 + m;
    Split16(buffer, 256 * t + High(x, y), y % 16);
    Split256(256 * t + High(x, y), t, High(x, y));
  }

  lemma MiddleBits(was: int, y: int, z: int, buffer: int)
    requires 0 <= y < 64 && 0 <= z < 64 && was % 16 == y % 16 && buffer % 4096 == (was * 64 + z) % 4096
    ensures buffer / 4 % 256 == Middle(y, z) && buffer % 4 == z % 4
  {
    var m := SameLow(buffer, was * 64 + z);
    var t := was / 16 + 4 * m;
    Split4(buffer, 256 * t + Middle(y, z), z % 4);
    Split256(256 * t + Middle(y, z), t, Middle(y, z));
  }

  lemma LowestBits(was: int, z: int, w: int, buffer: int)
    requires 0 <= z < 64 && 0 <= w < 64 && was % 4 == z % 4 && buffer % 4096 == (was * 64 + w) % 4096
    ensures buffer % 256 == Low(z, w)
  {
    var m := SameLow(buffer, was * 64 + w);
    var t := was / 4 + 16 * m;
    Split256(buffer, t, Low(z, w));
  }

  lemma {:induction false} DoneStays(text: string, k: nat)
    requires k <= |text| && !Read(text, k).Reading?
    ensures ReadAll(text) == Read(text, k)
    decreases |text| - k
  {
    if k < |text| {
      DoneStays(text, k + 1);
    }
  }

  // ---------------------------------------------------------------- round trip

  lemma {:induction false} ReadPrefix(t: string, c: char, k: nat)
    requires k <= |t|
    ensures Read(t + [c], k) == Read(t, k)
    decreases k
  {
    if k > 0 {
      ReadPrefix(t, c, k - 1);
    }
  }

  lemma ReadSnoc(t: string, c: char)
    ensures ReadAll(t + [c]) == ReadChar(ReadAll(t), c)
  {
    ReadPrefix(t, c, |t|);
  }

  /** White space makes no difference, wherever it is. */
  lemma {:induction false} ReadSkips(text: string, k: nat)
    requires k <= |text|
    ensures ReadAll(FilterUpTo(text, NotSpace, k)) == Read(text, k)
    decreases k
  {
    if k > 0 {
      ReadSkips(text, k - 1);
      var t := FilterUpTo(text, NotSpace, k - 1);
      if NotSpace(text[k - 1]) {
        ReadSnoc(t, text[k - 1]);
      } else {
        assert t + [] == t;
      }
    }
  }

  lemma {:induction false} ReadLetters(ds: seq<Sextet>, k: nat)
    requires k <= |ds|
    ensures Read(Letters(ds), k) == Reading(ds[..k])
    decreases k
  {
    if k > 0 {
      ReadLetters(ds, k - 1);
      LetterRoundTrip(ds[k - 1]);
      assert ds[..k] == ds[..k - 1] + [ds[k - 1]];
    }
  }

  predicate Yields(text: string, ds: seq<Sextet>) {
    !ReadAll(text).Invalid? && ReadAll(text).ds == ds
  }

  lemma {:induction false} ReadPads(t: string, ds: seq<Sextet>, n: nat)
    requires Yields(t, ds)
    ensures Yields(t + Pads(n), ds)
    decreases n
  {
    if n == 0 {
      assert t + Pads(0) == t;
    } else {
      ReadPads(t, ds, n - 1);
      ReadSnoc(t + Pads(n - 1), '=');
      assert t + Pads(n - 1) + ['='] == t + Pads(n);
    }
  }

  lemma ReadText(ds: seq<Sextet>)
    ensures Yields(Padded(Letters(ds)), ds)
  {
    ReadLetters(ds, |ds|);
    assert ds[..|ds|] == ds;
    ReadPads(Letters(ds), ds, (4 - |ds| % 4) % 4);
  }

  /** Decoding undoes encoding, also after white space has been put in anywhere. */
  lemma RoundTrip(s: seq<Byte>, text: string)
    requires Filter(text, NotSpace) == EncodeText(s)
    ensures DecodeText(text) == Ok(s)
  {
    ReadSkips(text, |text|);
    ReadText(Sextets(s));
    SextetsRoundTrip(s);
  }

  /** The text as the encoder leaves it has no white space to remove. */
  lemma NoSpaces(s: seq<Byte>)
    ensures Filter(EncodeText(s), NotSpace) == EncodeText(s)
  {
    var t := Letters(Sextets(s));
    forall k | 0 <= k < |t| ensures NotSpace(t[k]) {
      LetterRoundTrip(Sextets(s)[k]);
    }
    PadsClean((4 - |t| % 4) % 4);
    FilterAll(EncodeText(s), NotSpace, |EncodeText(s)|);
    assert EncodeText(s)[..|EncodeText(s)|] == EncodeText(s);
  }

  lemma {:induction false} PadsClean(n: nat)
    ensures forall k :: 0 <= k < n ==> NotSpace(Pads(n)[k])
    decreases n
  {
    if n > 0 {
      PadsClean(n - 1);
    }
  }

  /** A blank, tab or line break put in at any place of the encoded text is skipped. */
  lemma SpaceAnywhere(s: seq<Byte>, i: nat, c: char)
    requires i <= |EncodeText(s)| && c as int in {9, 10, 11, 12, 13, 32}
    ensures DecodeText(EncodeText(s)[..i] + [c] + EncodeText(s)[i..]) == Ok(s)
  {
    var t := EncodeText(s);
    var head, tail := t[..i], t[i..];
    SpacesAre(c);
    NoSpaces(s);
    assert t == head + tail;
    FilterConcat(head, tail, NotSpace);
    FilterConcat(head + [c], tail, NotSpace);
    FilterConcat(head, [c], NotSpace);
    FilterNone([c], NotSpace, 1);
    assert Filter(head, NotSpace) + [] == Filter(head, NotSpace);
    RoundTrip(s, head + [c] + tail);
  }

  lemma {:induction false} PadsAre(n: nat, k: nat)
    requires k < n
    ensures Pads(n)[k] == '='
    decreases n
  {
    if k < n - 1 {
      PadsAre(n - 1, k);
    }
  }

  /** Groups of four: one '=' for each byte that the last group lacks, and none anywhere else. */
  lemma PaddingIs(s: seq<Byte>, q: nat, r: nat, k: nat)
    requires |s| + r == 3 * q && r < 3
    ensures |EncodeText(s)| == 4 * q
    ensures k < 4 * q ==> (EncodeText(s)[k] == '=' <==> k >= 4 * q - r)
  {
    var t := Letters(Sextets(s));
    SextetsOf(|s|, q, r);
    if k < |t| {
      LetterRoundTrip(Sextets(s)[k]);
    } else if k < 4 * q {
      PadsAre(r, k - |t|);
    }
  }

  lemma SextetsOf(n: nat, q: nat, r: nat)
    requires n + r == 3 * q && r < 3
    ensures SextetCount(n) == 4 * q - r && (4 - SextetCount(n) % 4) % 4 == r
  {
    assert 4 * n + 2 == 3 * (4 * q - r) + (2 - r);
  }

  lemma {:induction false} ReadUpTo(a: string, b: string, k: nat)
    requires k <= |a|
    ensures Read(a + b, k) == Read(a, k)
    decreases k
  {
    if k > 0 {
      ReadUpTo(a, b, k - 1);
    }
  }

  /** What stands behind the first '=' makes no difference. */
  lemma PaddingEnds(a: string, b: string)
    ensures DecodeText(a + "=" + b) == DecodeText(a)
  {
    var text := a + "=" + b;
    assert text == a + ("=" + b);
    ReadUpTo(a, "=" + b, |a|);
    assert text[|a|] == '=';
    if ReadAll(a).Reading? {
      assert Read(text, |a| + 1) == Done(ReadAll(a).ds);
      DoneStays(text, |a| + 1);
    } else {
      DoneStays(text, |a|);
    }
  }

  // ---------------------------------------------------------------- what is refused

  /** text[i] is read, and is neither white space nor padding nor a letter. */
  ghost predicate Bad(text: string, i: nat) {
    && i < |text| && !IsSpace(text[i]) && (forall d: Sextet :: Letter(d) != text[i])
    && forall k :: 0 <= k <= i ==> text[k] != '='
  }

  lemma {:induction false} ReadState(text: string, k: nat)
    requires k <= |text|
    ensures Read(text, k).Invalid? <==> exists i: nat :: i < k && Bad(text, i)
    ensures Read(text, k).Reading? ==> forall i :: 0 <= i < k ==> text[i] != '='
    ensures Read(text, k).Done? ==> exists i :: 0 <= i < k && text[i] == '='
    decreases k
  {
    if k > 0 {
      ReadState(text, k - 1);
      DigitOfLetter(text[k - 1]);
      if Read(text, k).Invalid? && !Read(text, k - 1).Invalid? {
        assert Bad(text, k - 1);
      }
    }
  }

  /** Decoding fails exactly when such a character comes before the first '='. */
  lemma InvalidExactly(text: string)
    ensures DecodeText(text) == InvalidCharacter <==> exists i: nat :: Bad(text, i)
  {
    ReadState(text, |text|);
  }

  /** Both 32-bit programs, one after the other. */
  method EncodeThenDecode(s: seq<Byte>) returns (r: Result)
    ensures r == Ok(s)
  {
    Wrap32KeepsLow();
    var text := Encode(s, Wrap32);
    NoSpaces(s);
    RoundTrip(s, text);
    r := Decode(text, Wrap32);
  }
}
