/** Which keys of a sorted run belong to a table (scan.cc). A key starts with the table's number
    as four big-endian bytes. The block path seeks to that prefix and stops at the first key of
    another table; the SST path reads the range between two prefixes. */
module KeyRange {
  import opened RowData
  import opened Sequences

  type Bytes = seq<Byte>

  datatype KV = KV(key: Bytes, value: Bytes)

  const TWO32 := 0x1_0000_0000

  predicate Int32(n: int) {
    -0x8000_0000 <= n < 0x8000_0000
  }

  /** The same 32 bits read without sign; 2^31, one past the largest int, wraps. */
  function Unsigned(n: int): (u: int)
    requires -0x8000_0000 <= n <= 0x8000_0000
    ensures 0 <= u < TWO32
  {
    if n < 0 then n + TWO32 else n
  }

  /** The little-endian bytes of an int, as memcpy sees them. */
  function IntBytes(n: int): (t: Bytes)
    requires -0x8000_0000 <= n <= 0x8000_0000
    ensures |t| == 4
  {
    var u := Unsigned(n);
    [u % 256, u / 256 % 256, u / 256 / 256 % 256, u / 256 / 256 / 256]
  }

  function U32(b3: int, b2: int, b1: int, b0: int): int {
    b3 * 16777216 + b2 * 65536 + b1 * 256 + b0
  }

  /** The int those bytes stand for. */
  function BytesInt(t: Bytes): (n: int)
    requires |t| == 4
    ensures Int32(n)
  {
    var u := U32(t[3], t[2], t[1], t[0]);
    if u < 0x8000_0000 then u else u - TWO32
  }

  function Reversed4(t: Bytes): (r: Bytes)
    requires |t| == 4
    ensures |r| == 4
  {
    [t[3], t[2], t[1], t[0]]
  }

  /** `generate_seek_key`; n + 1 may wrap around. */
  function SeekKey(n: int): (s: Bytes)
    requires -0x8000_0000 <= n <= 0x8000_0000
    ensures |s| == 4
  {
    Reversed4(IntBytes(n))
  }

  /** `keti_get_table_index_number`: the first four bytes, reversed, read as an int. */
  function TableNumber(key: Bytes): int
    requires |key| >= 4
  {
    BytesInt([key[3], key[2], key[1], key[0]])
  }

  lemma Bytes4(u: int)
    requires 0 <= u < TWO32
    ensures u == U32(u / 256 / 256 / 256, u / 256 / 256 % 256, u / 256 % 256, u % 256)
  {
    var p := u / 256;
    var q := p / 256;
    assert u == p * 256 + u % 256 && p == q * 256 + p % 256 && q == q / 256 * 256 + q % 256;
  }

  lemma IntBytesRoundTrip(n: int)
    requires Int32(n)
    ensures BytesInt(IntBytes(n)) == n
  {
    Bytes4(Unsigned(n));
  }

  /** The number reads back from the prefix. */
  lemma SeekKeyRoundTrip(n: int)
    requires Int32(n)
    ensures TableNumber(SeekKey(n)) == n
  {
    IntBytesRoundTrip(n);
  }

  // ---------------------------------------------------------------- the key order

  /** The bytewise order of the key-value store: first difference decides, a prefix comes first. */
  predicate Less(a: Bytes, b: Bytes) {
    b != [] && (a == [] || a[0] < b[0] || (a[0] == b[0] && Less(a[1..], b[1..])))
  }

  /** In which byte two strings first differ, if the shorter one is not a prefix of the other. */
  predicate DifferAt(a: Bytes, b: Bytes, i: nat) {
    && i <= |a| && i < |b| && (forall k :: 0 <= k < i ==> a[k] == b[k])
    && (i < |a| ==> a[i] < b[i])
  }

  /** a comes first if and only if it is smaller in the first byte that differs, or ends before one. */
  lemma {:induction false} LessIs(a: Bytes, b: Bytes)
    ensures Less(a, b) <==> exists i: nat :: DifferAt(a, b, i)
    decreases |a|
  {
    if a != [] && b != [] && a[0] == b[0] {
      LessIs(a[1..], b[1..]);
      if i: nat :| DifferAt(a[1..], b[1..], i) {
        forall k | 0 <= k < i + 1 ensures a[k] == b[k] {
          assert k > 0 ==> a[k] == a[1..][k - 1] && b[k] == b[1..][k - 1];
        }
        assert DifferAt(a, b, i + 1);
      }
      if i: nat :| DifferAt(a, b, i) {
        assert i > 0 && DifferAt(a[1..], b[1..], i - 1);
      }
    } else if Less(a, b) {
      assert DifferAt(a, b, 0);
    }
  }

  /** A strict total order. */
  lemma {:induction false} LessTotal(a: Bytes, b: Bytes)
    ensures !(Less(a, b) && Less(b, a)) && (Less(a, b) || Less(b, a) || a == b) && !Less(a, a)
    decreases |a|
  {
    if a != [] {
      LessTotal(a[1..], if b == [] then [] else b[1..]);
      LessTotal(a[1..], a[1..]);
      assert a == [a[0]] + a[1..];
      assert b != [] ==> b == [b[0]] + b[1..];
    }
  }

  lemma {:induction false} LessTransitive(a: Bytes, b: Bytes, c: Bytes)
    ensures Less(a, b) && Less(b, c) ==> Less(a, c)
    decreases |a|
  {
    if a != [] && b != [] && c != [] {
      LessTransitive(a[1..], b[1..], c[1..]);
    }
  }

  predicate Sorted(kvs: seq<KV>) {
    forall i, j :: 0 <= i < j < |kvs| ==> !Less(kvs[j].key, kvs[i].key)
  }

  predicate LongKeys(kvs: seq<KV>) {
    forall i :: 0 <= i < |kvs| ==> |kvs[i].key| >= 4
  }

  /** The unsigned value of a four-byte prefix. */
  function Prefix(key: Bytes): int
    requires |key| >= 4
  {
    U32(key[0], key[1], key[2], key[3])
  }

  lemma SeekKeyPrefix(n: int)
    requires -0x8000_0000 <= n <= 0x8000_0000
    ensures Prefix(SeekKey(n)) == Unsigned(n)
  {
    Bytes4(Unsigned(n));
  }

  lemma TableNumberPrefix(key: Bytes, n: int)
    requires |key| >= 4 && Int32(n)
    ensures TableNumber(key) == n <==> Prefix(key) == Unsigned(n)
  {
  }

  /** Against a four-byte bound the order is the order of the prefixes. */
  lemma LessIsPrefixLess(key: Bytes, bound: Bytes)
    requires |key| >= 4 && |bound| == 4
    ensures Less(key, bound) <==> Prefix(key) < Prefix(bound)
  {
    var k1, b1 := key[1..], bound[1..];
    var k2, b2 := k1[1..], b1[1..];
    var k3, b3 := k2[1..], b2[1..];
    assert b3[1..] == [];
    assert Less(k3, b3) <==> key[3] < bound[3];
    assert Less(k2, b2) <==> key[2] < bound[2] || (key[2] == bound[2] && Less(k3, b3));
    assert Less(k1, b1) <==> key[1] < bound[1] || (key[1] == bound[1] && Less(k2, b2));
  }

  /** Sorted keys have sorted prefixes. */
  lemma LessOfPrefixLess(a: Bytes, b: Bytes)
    requires |a| >= 4 && |b| >= 4 && Prefix(a) < Prefix(b)
    ensures Less(a, b)
  {
    var a1, b1 := a[1..], b[1..];
    var a2, b2 := a1[1..], b1[1..];
    var a3, b3 := a2[1..], b2[1..];
    assert a[3] < b[3] ==> Less(a3, b3);
    assert a[2] < b[2] || (a[2] == b[2] && a[3] < b[3]) ==> Less(a2, b2);
    assert Less(a1, b1) <==> a[1] < b[1] || (a[1] == b[1] && Less(a2, b2));
  }

  // ---------------------------------------------------------------- three ways to select a table

  predicate Belongs(kv: KV, n: int) {
    |kv.key| >= 4 && TableNumber(kv.key) == n
  }

  /** The two questions a scan asks about a key: is it before the seek key, is it of the table? */
  function Below(n: int): KV -> bool
    requires Int32(n)
  {
    (kv: KV) => Less(kv.key, SeekKey(n))
  }

  function Mine(n: int): KV -> bool {
    (kv: KV) => Belongs(kv, n)
  }

  /** The rows of table n. */
  function Select(kvs: seq<KV>, n: int): seq<KV> {
    Filter(kvs, Mine(n))
  }

  /** The first position from i on where `p` no longer holds: where a seek past the keys below a
      bound ends, and where a run of keys of the table ends. */
  function SkipWhile(kvs: seq<KV>, p: KV -> bool, i: nat): (j: nat)
    requires i <= |kvs|
    ensures i <= j <= |kvs|
    ensures j < |kvs| ==> !p(kvs[j])
    ensures forall x :: i <= x < j ==> p(kvs[x])
    decreases |kvs| - i
  {
    if i == |kvs| || !p(kvs[i]) then i else SkipWhile(kvs, p, i + 1)
  }

  /** The block path: seek, then read while the table number matches. */
  function BlockRows(block: seq<KV>, below: KV -> bool, mine: KV -> bool): seq<KV> {
    var i := SkipWhile(block, below, 0);
    block[i..SkipWhile(block, mine, i)]
  }

  /** The block path stopped because it met a key of another table. */
  predicate Crosses(block: seq<KV>, below: KV -> bool, mine: KV -> bool) {
    SkipWhile(block, mine, SkipWhile(block, below, 0)) < |block|
  }

  predicate InBounds(kv: KV, n: int) {
    Int32(n) && !Less(kv.key, SeekKey(n)) && Less(kv.key, SeekKey(n + 1))
  }

  /** The SST path: an iterator bounded by [seek_key(n), seek_key(n+1)). */
  function RangeRows(kvs: seq<KV>, n: int): seq<KV> {
    Filter(kvs, kv => InBounds(kv, n))
  }

  /** Belonging to table n, and lying below its seek key, in terms of the prefix. */
  lemma KeyVersusTable(key: Bytes, n: int)
    requires |key| >= 4 && Int32(n)
    ensures TableNumber(key) == n <==> Prefix(key) == Unsigned(n)
    ensures Less(key, SeekKey(n)) <==> Prefix(key) < Unsigned(n)
  {
    SeekKeyPrefix(n);
    TableNumberPrefix(key, n);
    LessIsPrefixLess(key, SeekKey(n));
  }

  lemma KeysAscend(block: seq<KV>, x: nat, y: nat)
    requires Sorted(block) && LongKeys(block) && x <= y < |block|
    ensures Prefix(block[x].key) <= Prefix(block[y].key)
  {
    if Prefix(block[y].key) < Prefix(block[x].key) {
      LessOfPrefixLess(block[y].key, block[x].key);
    }
  }

  /** [i, j) is what the block path reads: i is where the seek stops, j where the run ends. */
  predicate Run(block: seq<KV>, n: int, i: nat, j: nat)
    requires Int32(n)
  {
    && i <= j <= |block|
    && (forall x :: 0 <= x < i ==> Less(block[x].key, SeekKey(n)))
    && (i < |block| ==> !Less(block[i].key, SeekKey(n)))
    && (forall x :: i <= x < j ==> Belongs(block[x], n))
    && (j < |block| ==> !Belongs(block[j], n))
  }

  lemma AfterRun(block: seq<KV>, n: int, i: nat, j: nat, x: nat)
    requires Sorted(block) && LongKeys(block) && Int32(n) && Run(block, n, i, j) && j <= x < |block|
    ensures Prefix(block[x].key) > Unsigned(n)
  {
    KeyVersusTable(block[j].key, n);
    KeyVersusTable(block[i].key, n);
    KeysAscend(block, i, j);
    KeysAscend(block, j, x);
  }

  /** In a sorted block the rows of a table are one run, and the seek finds its start. */
  lemma BlockRowsIsSelect(block: seq<KV>, n: int)
    requires Sorted(block) && LongKeys(block) && Int32(n)
    ensures BlockRows(block, Below(n), Mine(n)) == Select(block, n)
  {
    var i := SkipWhile(block, Below(n), 0);
    var j := SkipWhile(block, Mine(n), i);
    assert Run(block, n, i, j);
    forall x | 0 <= x < |block| ensures Belongs(block[x], n) <==> i <= x < j {
      KeyVersusTable(block[x].key, n);
      if j <= x {
        AfterRun(block, n, i, j, x);
      }
    }
    FilterRun(block, Mine(n), i, j, |block|);
  }

  /** The block path runs into another table exactly if the block reaches a later table. */
  lemma CrossesIsLaterKey(block: seq<KV>, n: int)
    requires Sorted(block) && LongKeys(block) && Int32(n)
    ensures Crosses(block, Below(n), Mine(n)) <==> exists i :: 0 <= i < |block| && Prefix(block[i].key) > Unsigned(n)
  {
    var i := SkipWhile(block, Below(n), 0);
    var j := SkipWhile(block, Mine(n), i);
    assert Run(block, n, i, j);
    if j < |block| {
      AfterRun(block, n, i, j, j);
    } else {
      forall x | 0 <= x < |block| ensures Prefix(block[x].key) <= Unsigned(n) {
        KeyVersusTable(block[x].key, n);
      }
    }
  }

  /** One key of the bounded iterator. */
  lemma InBoundsIsBelongs(kv: KV, n: int)
    requires |kv.key| >= 4 && Int32(n)
    ensures InBounds(kv, n) <==> Belongs(kv, n) && n != -1
  {
    KeyVersusTable(kv.key, n);
    SeekKeyPrefix(n + 1);
    LessIsPrefixLess(kv.key, SeekKey(n + 1));
  }

  /** The range is the table, except for number -1, whose upper bound wraps around to zero. */
  lemma RangeIsSelect(kvs: seq<KV>, n: int)
    requires LongKeys(kvs) && Int32(n)
    ensures RangeRows(kvs, n) == if n == -1 then [] else Select(kvs, n)
  {
    forall x | 0 <= x < |kvs| ensures InBounds(kvs[x], n) <==> Belongs(kvs[x], n) && n != -1 {
      InBoundsIsBelongs(kvs[x], n);
    }
    if n == -1 {
      FilterNone(kvs, kv => InBounds(kv, n), |kvs|);
    } else {
      FilterSame(kvs, kv => InBounds(kv, n), Mine(n), |kvs|);
    }
  }

  /** What the block path reads from the first k blocks. */
  function AllBlockRows(blocks: seq<seq<KV>>, below: KV -> bool, mine: KV -> bool, k: nat): seq<KV>
    requires k <= |blocks|
  {
    if k == 0 then [] else Cat(AllBlockRows(blocks, below, mine, k - 1), BlockRows(blocks[k - 1], below, mine))
  }

  predicate WellFormedBlocks(blocks: seq<seq<KV>>) {
    LongKeys(Flatten(blocks)) && Sorted(Flatten(blocks))
  }

  lemma {:induction false} AllBlockRowsIsSelect(blocks: seq<seq<KV>>, n: int, k: nat)
    requires WellFormedBlocks(blocks) && Int32(n) && k <= |blocks|
    ensures AllBlockRows(blocks, Below(n), Mine(n), k) == Select(Flatten(blocks[..k]), n)
    decreases k
  {
    if k > 0 {
      AllBlockRowsIsSelect(blocks, n, k - 1);
      BlockInOrder(blocks, k - 1);
      BlockRowsIsSelect(blocks[k - 1], n);
      SelectOneMore(blocks, k, Mine(n));
    }
  }

  lemma SelectOneMore(blocks: seq<seq<KV>>, k: nat, mine: KV -> bool)
    requires 0 < k <= |blocks|
    ensures Filter(Flatten(blocks[..k]), mine)
         == Cat(Filter(Flatten(blocks[..k - 1]), mine), Filter(blocks[k - 1], mine))
  {
    assert blocks[..k] == blocks[..k - 1] + [blocks[k - 1]];
    FlattenSnoc(blocks[..k - 1], blocks[k - 1]);
    FilterConcat(Flatten(blocks[..k - 1]), blocks[k - 1], mine);
    CatIsConcat(Filter(Flatten(blocks[..k - 1]), mine), Filter(blocks[k - 1], mine));
  }

  /** A block is a slice of the run it was cut from. */
  lemma BlockAt(blocks: seq<seq<KV>>, b: nat, i: nat)
    requires b < |blocks| && i < |blocks[b]|
    ensures var at := |Flatten(blocks[..b])| + i;
      at < |Flatten(blocks)| && Flatten(blocks)[at] == blocks[b][i]
  {
    assert blocks == blocks[..b] + ([blocks[b]] + blocks[b + 1..]);
    FlattenConcat(blocks[..b], [blocks[b]] + blocks[b + 1..]);
    FlattenConcat([blocks[b]], blocks[b + 1..]);
    FlattenSnoc([], blocks[b]);
    assert [] + [blocks[b]] == [blocks[b]];
  }

  lemma BlockInOrder(blocks: seq<seq<KV>>, b: nat)
    requires WellFormedBlocks(blocks) && b < |blocks|
    ensures LongKeys(blocks[b]) && Sorted(blocks[b])
  {
    forall i | 0 <= i < |blocks[b]| ensures |blocks[b][i].key| >= 4 {
      BlockAt(blocks, b, i);
    }
    forall i, j | 0 <= i < j < |blocks[b]| ensures !Less(blocks[b][j].key, blocks[b][i].key) {
      BlockAt(blocks, b, i);
      BlockAt(blocks, b, j);
    }
  }

  /** However a sorted run of keys is cut into blocks, the two scan strategies read the same rows
      in the same order, namely those of table n; exactly the number -1 is read by one only. */
  lemma StrategiesAgree(blocks: seq<seq<KV>>, n: int)
    requires WellFormedBlocks(blocks) && Int32(n)
    ensures AllBlockRows(blocks, Below(n), Mine(n), |blocks|) == Select(Flatten(blocks), n)
    ensures AllBlockRows(blocks, Below(n), Mine(n), |blocks|) == RangeRows(Flatten(blocks), n)
        <==> n != -1 || Select(Flatten(blocks), n) == []
  {
    AllBlockRowsIsSelect(blocks, n, |blocks|);
    assert blocks[..|blocks|] == blocks;
    RangeIsSelect(Flatten(blocks), n);
  }

  lemma LaterBlockLater(blocks: seq<seq<KV>>, n: int, b: nat, i: nat, d: nat, j: nat)
    requires WellFormedBlocks(blocks) && Int32(n) && b < d < |blocks| && i < |blocks[b]| && j < |blocks[d]|
    ensures |blocks[b][i].key| >= 4 && |blocks[d][j].key| >= 4
    ensures Prefix(blocks[b][i].key) <= Prefix(blocks[d][j].key)
  {
    BlockAt(blocks, b, i);
    BlockAt(blocks, d, j);
    BlockOrder(blocks, b, d);
    KeysAscend(Flatten(blocks), |Flatten(blocks[..b])| + i, |Flatten(blocks[..d])| + j);
  }

  /** Once a block has crossed into another table, every later block does. */
  lemma CrossingStays(blocks: seq<seq<KV>>, n: int, b: nat, d: nat)
    requires WellFormedBlocks(blocks) && Int32(n) && b < d < |blocks| && blocks[d] != []
    requires Crosses(blocks[b], Below(n), Mine(n))
    ensures Crosses(blocks[d], Below(n), Mine(n)) && BlockRows(blocks[d], Below(n), Mine(n)) == []
  {
    BlockInOrder(blocks, b);
    CrossesIsLaterKey(blocks[b], n);
    var i :| 0 <= i < |blocks[b]| && Prefix(blocks[b][i].key) > Unsigned(n);
    LaterBlockLater(blocks, n, b, i, d, 0);
    KeyVersusTable(blocks[d][0].key, n);
    assert SkipWhile(blocks[d], Below(n), 0) == 0;
  }

  lemma BlockOrder(blocks: seq<seq<KV>>, b: nat, d: nat)
    requires b < d <= |blocks|
    ensures |Flatten(blocks[..b])| + |blocks[b]| <= |Flatten(blocks[..d])|
  {
    assert blocks[..d] == blocks[..b] + ([blocks[b]] + blocks[b + 1..d]);
    FlattenConcat(blocks[..b], [blocks[b]] + blocks[b + 1..d]);
    FlattenConcat([blocks[b]], blocks[b + 1..d]);
    FlattenSnoc([], blocks[b]);
    assert [] + [blocks[b]] == [blocks[b]];
  }
}
