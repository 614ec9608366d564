/** Where a data-block scan has accounted for its block count, what it holds after that, and when its
    batches stay within raw_data[BUFFER_SIZE]. */
module ScanEnds {
  import opened RowData
  import opened Sequences
  import opened KeyRange
  import opened Scan

  /** The count is accounted for in block e and not before, and the blocks behind it neither reach a
      key beyond the table nor fill a batch. */
  predicate EndsAt(t: Input, csd: int, blocks: seq<seq<KV>>, e: nat) {
    && 0 < e <= |blocks| && EndsWhole(t, csd, blocks[..e]) && |blocks| - e < t.numOfBlocks
    && forall i :: e <= i < |blocks| ==> !Crosses(blocks[i], t.below, t.mine)
  }

  lemma {:induction false} SameReads(csd: int, a: seq<Read>, b: seq<Read>, num: nat, k: nat)
    requires k <= |a| && k <= |b| && forall i :: 0 <= i < k ==> a[i] == b[i]
    ensures ScanReads(csd, a, num, k) == ScanReads(csd, b, num, k)
    decreases k
  {
    if k > 0 {
      SameReads(csd, a, b, num, k - 1);
      assert a[k - 1] == b[k - 1];
    }
  }

  lemma ScanPrefix(t: Input, csd: int, blocks: seq<seq<KV>>, e: nat, k: nat)
    requires k <= e <= |blocks|
    ensures ScanReads(csd, Reads(t, blocks[..e]), t.numOfBlocks, k)
         == ScanReads(csd, Reads(t, blocks), t.numOfBlocks, k)
  {
    SameReads(csd, Reads(t, blocks[..e]), Reads(t, blocks), t.numOfBlocks, k);
  }

  /** What such a scan has emitted at its end is what it had emitted after block e; the blocks behind
      it are held. */
  lemma EndsAtHolds(t: Input, csd: int, blocks: seq<seq<KV>>, e: nat, k: nat)
    requires t.numOfBlocks > 0 && EndsAt(t, csd, blocks, e) && e <= k <= |blocks|
    ensures Over(ScanReads(csd, Reads(t, blocks), t.numOfBlocks, k), ScanBlocks(t, csd, blocks[..e]), k - e)
    ensures ScanBlocks(t, csd, blocks[..e]).cur == EMPTY
  {
    CleanBlockScan(t, csd, blocks[..e]);
    ScanPrefix(t, csd, blocks, e, e);
    HeldBack(csd, Reads(t, blocks), t.numOfBlocks, e, k);
  }

  /** Its emitted rows are those of the first e blocks. */
  lemma EndsAtRows(t: Input, csd: int, blocks: seq<seq<KV>>, e: nat)
    requires t.numOfBlocks > 0 && EndsAt(t, csd, blocks, e)
    ensures OutRows(ScanBlocks(t, csd, blocks).out) == RowsOf(AllBlockRows(blocks, t.below, t.mine, e), t.rowOf)
  {
    var p := ScanReads(csd, Reads(t, blocks), t.numOfBlocks, e);
    EndsAtHolds(t, csd, blocks, e, |blocks|);
    ScanPrefix(t, csd, blocks, e, e);
    BlockScanConserves(t, csd, blocks, e);
    assert OutRows(p.out) + [] == OutRows(p.out);
  }

  /** A scan whose batches add up to the block count had everything accounted for at its last
      emission. */
  lemma LastEmissionSettles(t: Input, csd: int, blocks: seq<seq<KV>>) returns (e: nat)
    requires t.numOfBlocks > 0 && OutBlocks(ScanBlocks(t, csd, blocks).out) == csd
    ensures e <= |blocks| && |blocks| - e < t.numOfBlocks
    ensures forall i :: e <= i < |blocks| ==> !Crosses(blocks[i], t.below, t.mine)
    ensures ScanBlocks(t, csd, blocks[..e]).out == ScanBlocks(t, csd, blocks).out
    ensures ScanBlocks(t, csd, blocks[..e]).cur == EMPTY && ScanBlocks(t, csd, blocks[..e]).left == 0
  {
    var runs := Reads(t, blocks);
    e := LastEmission(csd, runs, t.numOfBlocks, |blocks|);
    ScanReadsConserves(csd, runs, t.numOfBlocks, |blocks|);
    ScanPrefix(t, csd, blocks, e, e);
    forall i | e <= i < |blocks| ensures !Crosses(blocks[i], t.below, t.mine) {
      assert !runs[i].crossed;
    }
  }

  /** The blocks from e on hold no row of the table. */
  predicate NoRows(t: Input, blocks: seq<seq<KV>>, e: nat) {
    forall i :: e <= i < |blocks| ==> BlockRows(blocks[i], t.below, t.mine) == []
  }

  lemma {:induction false} RowsFrom(t: Input, blocks: seq<seq<KV>>, e: nat, m: nat)
    requires e <= m <= |blocks|
    ensures |AllBlockRows(blocks, t.below, t.mine, e)| <= |AllBlockRows(blocks, t.below, t.mine, m)|
    ensures |AllBlockRows(blocks, t.below, t.mine, e)| == |AllBlockRows(blocks, t.below, t.mine, m)|
      <==> forall i :: e <= i < m ==> BlockRows(blocks[i], t.below, t.mine) == []
    ensures (forall i :: e <= i < m ==> BlockRows(blocks[i], t.below, t.mine) == []) ==>
      AllBlockRows(blocks, t.below, t.mine, e) == AllBlockRows(blocks, t.below, t.mine, m)
    decreases m
  {
    if e < m {
      RowsFrom(t, blocks, e, m - 1);
      CatIsConcat(AllBlockRows(blocks, t.below, t.mine, m - 1), BlockRows(blocks[m - 1], t.below, t.mine));
    }
  }

  // ---------------------------------------------------------------- lengths

  /** The bytes a block contributes. */
  function BlockLength(t: Input, block: seq<KV>): nat {
    |Flatten(ReadOf(t, block).rows)|
  }

  /** The bytes the blocks lo, ..., hi-1 contribute. */
  function Stretch(t: Input, blocks: seq<seq<KV>>, lo: nat, hi: nat): nat
    requires hi <= |blocks|
    decreases hi
  {
    if hi <= lo then 0 else Stretch(t, blocks, lo, hi - 1) + BlockLength(t, blocks[hi - 1])
  }

  lemma {:induction false} StretchGrows(t: Input, blocks: seq<seq<KV>>, lo: nat, m: nat, hi: nat)
    requires m <= hi <= |blocks|
    ensures Stretch(t, blocks, lo, m) <= Stretch(t, blocks, lo, hi)
    decreases hi
  {
    if m < hi {
      StretchGrows(t, blocks, lo, m, hi - 1);
    }
  }

  lemma {:induction false} StretchNothing(t: Input, blocks: seq<seq<KV>>, e: nat, hi: nat)
    requires hi <= |blocks| && NoRows(t, blocks, e)
    ensures Stretch(t, blocks, e, hi) == 0
    decreases hi
  {
    if e < hi {
      StretchNothing(t, blocks, e, hi - 1);
      assert ReadOf(t, blocks[hi - 1]).rows == [];
    }
  }

  lemma CollectLength(p: Progress, rows: seq<Row>)
    ensures |Flatten(Collect(p, rows).cur.rows)| == |Flatten(p.cur.rows)| + |Flatten(rows)|
  {
    CatIsConcat(p.cur.rows, rows);
    FlattenConcat(p.cur.rows, rows);
  }

  /** The current batch holds the last blocks, as many as it counts. */
  predicate HoldsLast(t: Input, blocks: seq<seq<KV>>, p: Progress, k: nat)
    requires k <= |blocks|
  {
    0 <= p.cur.blockCount <= k && |Flatten(p.cur.rows)| == Stretch(t, blocks, k - p.cur.blockCount, k)
  }

  lemma HoldsLastStep(t: Input, blocks: seq<seq<KV>>, p: Progress, k: nat)
    requires k < |blocks| && HoldsLast(t, blocks, p, k)
    ensures HoldsLast(t, blocks, ReadBlock(p, ReadOf(t, blocks[k]), t.numOfBlocks), k + 1)
  {
    CollectLength(p, ReadOf(t, blocks[k]).rows);
  }

  lemma {:induction false} HeldAlong(t: Input, blocks: seq<seq<KV>>, after: nat -> Progress, k: nat)
    requires k <= |blocks| && HoldsLast(t, blocks, after(0), 0)
    requires forall i :: 0 <= i < |blocks| ==>
      after(i + 1) == ReadBlock(after(i), ReadOf(t, blocks[i]), t.numOfBlocks)
    ensures HoldsLast(t, blocks, after(k), k)
    decreases k
  {
    if k > 0 {
      HeldAlong(t, blocks, after, k - 1);
      HoldsLastStep(t, blocks, after(k - 1), k - 1);
      assert after(k - 1 + 1) == ReadBlock(after(k - 1), ReadOf(t, blocks[k - 1]), t.numOfBlocks);
    }
  }

  lemma HeldBlocks(t: Input, csd: int, blocks: seq<seq<KV>>, k: nat)
    requires k <= |blocks|
    ensures HoldsLast(t, blocks, ScanReads(csd, Reads(t, blocks), t.numOfBlocks, k), k)
  {
    var after := After(t, csd, blocks);
    assert after(0) == Start(csd);
    forall i | 0 <= i < |blocks|
      ensures after(i + 1) == ReadBlock(after(i), ReadOf(t, blocks[i]), t.numOfBlocks)
    {
      ScanOneMore(t, csd, blocks, i);
    }
    HeldAlong(t, blocks, after, k);
  }

  // ---------------------------------------------------------------- within the buffer

  /** How far raw_data is filled when all of block k has been copied. */
  function Filled(t: Input, csd: int, blocks: seq<seq<KV>>, k: nat): nat
    requires k < |blocks|
  {
    |Flatten(Collect(ScanReads(csd, Reads(t, blocks), t.numOfBlocks, k), ReadOf(t, blocks[k]).rows).cur.rows)|
  }

  /** The scan never copies past the end of raw_data. */
  predicate ScanWithin(t: Input, csd: int, blocks: seq<seq<KV>>) {
    forall k :: 0 <= k < |blocks| ==> Filled(t, csd, blocks, k) <= t.bufferSize
  }

  /** Inside a block raw_data is filled no further than at its end. */
  lemma FilledInside(t: Input, csd: int, blocks: seq<seq<KV>>, k: nat, i: nat)
    requires k < |blocks| && i <= |ReadOf(t, blocks[k]).rows|
    ensures var p := ScanReads(csd, Reads(t, blocks), t.numOfBlocks, k);
      |Flatten(Collect(p, ReadOf(t, blocks[k]).rows[..i]).cur.rows)| <= Filled(t, csd, blocks, k)
  {
    var p, rows := ScanReads(csd, Reads(t, blocks), t.numOfBlocks, k), ReadOf(t, blocks[k]).rows;
    CollectLength(p, rows);
    CollectLength(p, rows[..i]);
    assert rows == rows[..i] + rows[i..];
    FlattenConcat(rows[..i], rows[i..]);
  }

  predicate BatchesWithin(out: seq<Contents>, size: nat) {
    forall i :: 0 <= i < |out| ==> |Flatten(out[i].rows)| <= size
  }

  lemma OneMoreEmitted(p: Progress, x: Read, num: nat, size: nat)
    requires BatchesWithin(p.out, size) && |Flatten(Collect(p, x.rows).cur.rows)| <= size
    ensures BatchesWithin(ReadBlock(p, x, num).out, size)
  {
  }

  lemma {:induction false} EmittedAlong(t: Input, blocks: seq<seq<KV>>, after: nat -> Progress, k: nat)
    requires k <= |blocks| && BatchesWithin(after(0).out, t.bufferSize)
    requires forall i :: 0 <= i < |blocks| ==>
      && after(i + 1) == ReadBlock(after(i), ReadOf(t, blocks[i]), t.numOfBlocks)
      && |Flatten(Collect(after(i), ReadOf(t, blocks[i]).rows).cur.rows)| <= t.bufferSize
    ensures BatchesWithin(after(k).out, t.bufferSize)
    decreases k
  {
    if k > 0 {
      EmittedAlong(t, blocks, after, k - 1);
      OneMoreEmitted(after(k - 1), ReadOf(t, blocks[k - 1]), t.numOfBlocks, t.bufferSize);
      assert after(k - 1 + 1) == ReadBlock(after(k - 1), ReadOf(t, blocks[k - 1]), t.numOfBlocks);
    }
  }

  /** Nor is an emitted batch longer. */
  lemma EmittedWithin(t: Input, csd: int, blocks: seq<seq<KV>>)
    requires ScanWithin(t, csd, blocks)
    ensures BatchesWithin(ScanBlocks(t, csd, blocks).out, t.bufferSize)
  {
    var after := After(t, csd, blocks);
    assert after(0) == Start(csd);
    forall i | 0 <= i < |blocks|
      ensures after(i + 1) == ReadBlock(after(i), ReadOf(t, blocks[i]), t.numOfBlocks)
      ensures |Flatten(Collect(after(i), ReadOf(t, blocks[i]).rows).cur.rows)| <= t.bufferSize
    {
      ScanOneMore(t, csd, blocks, i);
      assert Filled(t, csd, blocks, i) <= t.bufferSize;
    }
    EmittedAlong(t, blocks, after, |blocks|);
  }

  lemma FilledIs(t: Input, csd: int, blocks: seq<seq<KV>>, k: nat)
    requires k < |blocks|
    ensures var held := ScanReads(csd, Reads(t, blocks), t.numOfBlocks, k).cur.blockCount;
      0 <= held <= k && Filled(t, csd, blocks, k) == Stretch(t, blocks, k - held, k + 1)
  {
    HeldBlocks(t, csd, blocks, k);
    CollectLength(ScanReads(csd, Reads(t, blocks), t.numOfBlocks, k), ReadOf(t, blocks[k]).rows);
  }

  /** The bytes of the blocks that make up batch j: NUM_OF_BLOCKS of them, or what is left. */
  function Window(t: Input, blocks: seq<seq<KV>>, j: nat): nat {
    Stretch(t, blocks, Multiple(t.numOfBlocks, j), WindowEnd(t, |blocks|, j))
  }

  function WindowEnd(t: Input, n: nat, j: nat): (hi: nat)
    ensures hi <= n
  {
    var hi := Multiple(t.numOfBlocks, j) + t.numOfBlocks;
    if hi <= n then hi else n
  }

  ghost predicate WindowsFit(t: Input, blocks: seq<seq<KV>>) {
    forall j: nat :: Multiple(t.numOfBlocks, j) < |blocks| ==> Window(t, blocks, j) <= t.bufferSize
  }

  /** Before the count is accounted for, full batches only have left. */
  lemma QuietBefore(t: Input, csd: int, blocks: seq<seq<KV>>, k: nat)
    requires t.numOfBlocks > 0 && EndsWhole(t, csd, blocks) && k < |blocks|
    ensures Quiet(ScanReads(csd, Reads(t, blocks), t.numOfBlocks, k), t.numOfBlocks, csd, k)
  {
    QuietScan(csd, Reads(t, blocks), t.numOfBlocks, k);
  }

  /** So block k joins batch j. */
  lemma FilledInWindow(t: Input, csd: int, blocks: seq<seq<KV>>, k: nat) returns (j: nat)
    requires t.numOfBlocks > 0 && EndsWhole(t, csd, blocks) && k < |blocks|
    ensures Multiple(t.numOfBlocks, j) <= k < Multiple(t.numOfBlocks, j) + t.numOfBlocks
    ensures Filled(t, csd, blocks, k) == Stretch(t, blocks, Multiple(t.numOfBlocks, j), k + 1)
  {
    QuietBefore(t, csd, blocks, k);
    FilledIs(t, csd, blocks, k);
    j := |ScanReads(csd, Reads(t, blocks), t.numOfBlocks, k).out|;
  }

  lemma WindowsApart(unit: nat, i: nat, j: nat)
    requires i < j
    ensures Multiple(unit, i) + unit <= Multiple(unit, j)
  {
    MultipleGrows(unit, i + 1, j);
  }

  lemma SameWindow(unit: nat, i: nat, j: nat, k: nat)
    requires unit > 0 && Multiple(unit, i) <= k < Multiple(unit, i) + unit
    requires Multiple(unit, j) <= k < Multiple(unit, j) + unit
    ensures i == j
  {
    if i < j {
      WindowsApart(unit, i, j);
    } else if j < i {
      WindowsApart(unit, j, i);
    }
  }

  lemma FilledWithin(t: Input, csd: int, blocks: seq<seq<KV>>, k: nat)
    requires t.numOfBlocks > 0 && EndsWhole(t, csd, blocks) && WindowsFit(t, blocks) && k < |blocks|
    ensures Filled(t, csd, blocks, k) <= t.bufferSize
  {
    var j := FilledInWindow(t, csd, blocks, k);
    InsideWindow(t, blocks, j, k);
  }

  lemma InsideWindow(t: Input, blocks: seq<seq<KV>>, j: nat, k: nat)
    requires WindowsFit(t, blocks) && k < |blocks|
    requires Multiple(t.numOfBlocks, j) <= k < Multiple(t.numOfBlocks, j) + t.numOfBlocks
    ensures Stretch(t, blocks, Multiple(t.numOfBlocks, j), k + 1) <= t.bufferSize
  {
    assert Window(t, blocks, j) <= t.bufferSize;
    StretchGrows(t, blocks, Multiple(t.numOfBlocks, j), k + 1, WindowEnd(t, |blocks|, j));
  }

  lemma WindowWithin(t: Input, csd: int, blocks: seq<seq<KV>>, j: nat)
    requires t.numOfBlocks > 0 && EndsWhole(t, csd, blocks) && ScanWithin(t, csd, blocks)
    requires Multiple(t.numOfBlocks, j) < |blocks|
    ensures Window(t, blocks, j) <= t.bufferSize
  {
    var k := WindowEnd(t, |blocks|, j) - 1;
    var i := FilledInWindow(t, csd, blocks, k);
    SameWindow(t.numOfBlocks, i, j, k);
    assert Filled(t, csd, blocks, k) <= t.bufferSize;
  }

  /** A scan that accounts for its count in the last block stays within raw_data if and only if no
      NUM_OF_BLOCKS blocks that make up a batch, nor the last ones, hold more than that. */
  lemma WindowsExactly(t: Input, csd: int, blocks: seq<seq<KV>>)
    requires t.numOfBlocks > 0 && EndsWhole(t, csd, blocks)
    ensures ScanWithin(t, csd, blocks) <==> WindowsFit(t, blocks)
  {
    if WindowsFit(t, blocks) {
      forall k | 0 <= k < |blocks| ensures Filled(t, csd, blocks, k) <= t.bufferSize {
        FilledWithin(t, csd, blocks, k);
      }
    } else if ScanWithin(t, csd, blocks) {
      forall j: nat | Multiple(t.numOfBlocks, j) < |blocks| ensures Window(t, blocks, j) <= t.bufferSize {
        WindowWithin(t, csd, blocks, j);
      }
    }
  }

  lemma FilledBefore(t: Input, csd: int, blocks: seq<seq<KV>>, e: nat, k: nat)
    requires k < e <= |blocks|
    ensures Filled(t, csd, blocks[..e], k) == Filled(t, csd, blocks, k)
  {
    ScanPrefix(t, csd, blocks, e, k);
  }

  lemma FilledBehind(t: Input, csd: int, blocks: seq<seq<KV>>, e: nat, k: nat)
    requires t.numOfBlocks > 0 && EndsAt(t, csd, blocks, e) && e <= k < |blocks|
    ensures Filled(t, csd, blocks, k) == Stretch(t, blocks, e, k + 1)
  {
    EndsAtHolds(t, csd, blocks, e, k);
    FilledIs(t, csd, blocks, k);
  }

  lemma EndsAtWithin(t: Input, csd: int, blocks: seq<seq<KV>>, e: nat)
    requires t.numOfBlocks > 0 && EndsAt(t, csd, blocks, e) && ScanWithin(t, csd, blocks)
    ensures ScanWithin(t, csd, blocks[..e]) && Stretch(t, blocks, e, |blocks|) <= t.bufferSize
  {
    forall k | 0 <= k < e ensures Filled(t, csd, blocks[..e], k) <= t.bufferSize {
      FilledBefore(t, csd, blocks, e, k);
    }
    if e < |blocks| {
      FilledBehind(t, csd, blocks, e, |blocks| - 1);
    }
  }

  lemma WithinEndsAt(t: Input, csd: int, blocks: seq<seq<KV>>, e: nat, k: nat)
    requires t.numOfBlocks > 0 && EndsAt(t, csd, blocks, e) && k < |blocks|
    requires ScanWithin(t, csd, blocks[..e]) && Stretch(t, blocks, e, |blocks|) <= t.bufferSize
    ensures Filled(t, csd, blocks, k) <= t.bufferSize
  {
    if k < e {
      FilledBefore(t, csd, blocks, e, k);
    } else {
      FilledBehind(t, csd, blocks, e, k);
      StretchGrows(t, blocks, e, k + 1, |blocks|);
    }
  }

  /** With blocks behind the end of the count: they make up a batch of their own. */
  lemma EndsAtExactly(t: Input, csd: int, blocks: seq<seq<KV>>, e: nat)
    requires t.numOfBlocks > 0 && EndsAt(t, csd, blocks, e)
    ensures ScanWithin(t, csd, blocks) <==>
      WindowsFit(t, blocks[..e]) && Stretch(t, blocks, e, |blocks|) <= t.bufferSize
  {
    WindowsExactly(t, csd, blocks[..e]);
    if ScanWithin(t, csd, blocks) {
      EndsAtWithin(t, csd, blocks, e);
    } else if WindowsFit(t, blocks[..e]) && Stretch(t, blocks, e, |blocks|) <= t.bufferSize {
      forall k | 0 <= k < |blocks| ensures Filled(t, csd, blocks, k) <= t.bufferSize {
        WithinEndsAt(t, csd, blocks, e, k);
      }
    }
  }

  // ---------------------------------------------------------------- SST scans

  predicate SstWithin(csd: int, rows: seq<Row>, bufferSize: nat) {
    forall k :: 0 <= k <= |rows| ==> |Flatten(AddRows(csd, rows, bufferSize, k).cur.rows)| <= bufferSize
  }

  predicate RowsWithin(rows: seq<Row>, bufferSize: nat) {
    forall i :: 0 <= i < |rows| ==> |rows[i]| <= bufferSize
  }

  lemma {:induction false} HeldWithin(rows: seq<Row>, bufferSize: nat, k: nat)
    requires k <= |rows| && RowsWithin(rows, bufferSize)
    ensures HeldLength(rows, bufferSize, k) <= bufferSize
    decreases k
  {
    if k > 0 {
      HeldWithin(rows, bufferSize, k - 1);
    }
  }

  /** An SST scan stays within raw_data if and only if no row is longer than that. */
  lemma SstWithinExactly(csd: int, rows: seq<Row>, bufferSize: nat)
    ensures SstWithin(csd, rows, bufferSize) <==> RowsWithin(rows, bufferSize)
  {
    if RowsWithin(rows, bufferSize) {
      forall k | 0 <= k <= |rows| ensures |Flatten(AddRows(csd, rows, bufferSize, k).cur.rows)| <= bufferSize {
        FlushesAre(csd, rows, bufferSize, k);
        HeldWithin(rows, bufferSize, k);
      }
    } else {
      var i :| 0 <= i < |rows| && |rows[i]| > bufferSize;
      FlushesAre(csd, rows, bufferSize, i + 1);
      assert |Flatten(AddRows(csd, rows, bufferSize, i + 1).cur.rows)| > bufferSize;
    }
  }
}
