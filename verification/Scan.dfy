/** The full-scan paths of scan.cc: blocks or SST files in, batches of rows with block counts out. */
module Scan {
  import opened RowData
  import opened Sequences
  import opened KeyRange

  /** A scan under way: the batch being filled, the blocks not yet accounted for, and the batches
      emitted so far. */
  datatype Progress = Progress(cur: Contents, left: int, out: seq<Contents>)

  function Start(csdBlockCount: int): Progress {
    Progress(EMPTY, csdBlockCount, [])
  }

  function Collect(p: Progress, rows: seq<Row>): Progress {
    p.(cur := p.cur.(rows := Cat(p.cur.rows, rows), scannedRows := p.cur.scannedRows + |rows|))
  }

  /** Move `blocks` of what is left into the current batch. */
  function Account(p: Progress, blocks: int): Progress {
    p.(cur := p.cur.(blockCount := p.cur.blockCount + blocks), left := p.left - blocks)
  }

  function Emit(p: Progress): Progress {
    Progress(EMPTY, p.left, Cat(p.out, [p.cur]))
  }

  function RowsOf(kvs: seq<KV>, rowOf: KV -> Row): seq<Row> {
    seq(|kvs|, i requires 0 <= i < |kvs| => rowOf(kvs[i]))
  }

  // ---------------------------------------------------------------- data-block path

  /** What one block yields: the rows of the table, and whether another table cut it short. */
  datatype Read = Read(rows: seq<Row>, crossed: bool)

  /** `read_data_block`: meeting another table ends the scan early and accounts for all that is
      left; otherwise the block counts one, and a full batch or the last block is emitted. */
  function ReadBlock(p: Progress, x: Read, numOfBlocks: nat): Progress {
    var q := Collect(p, x.rows);
    if x.crossed then Emit(Account(q, q.left))
    else
      var r := Account(q, 1);
      if r.cur.blockCount == numOfBlocks || r.left == 0 then Emit(r) else r
  }

  /** The scan after the first k blocks. The loop goes on after an early end. */
  function ScanReads(csd: int, runs: seq<Read>, numOfBlocks: nat, k: nat): Progress
    requires k <= |runs|
  {
    if k == 0 then Start(csd) else ReadBlock(ScanReads(csd, runs, numOfBlocks, k - 1), runs[k - 1], numOfBlocks)
  }

  datatype Input = Input(below: KV -> bool, mine: KV -> bool, rowOf: KV -> Row, numOfBlocks: nat, bufferSize: nat)

  function ReadOf(t: Input, block: seq<KV>): Read
  {
    Read(RowsOf(BlockRows(block, t.below, t.mine), t.rowOf), Crosses(block, t.below, t.mine))
  }

  function Reads(t: Input, blocks: seq<seq<KV>>): seq<Read>
  {
    seq(|blocks|, i requires 0 <= i < |blocks| => ReadOf(t, blocks[i]))
  }

  /** `data_block_full_scan` */
  function ScanBlocks(t: Input, csd: int, blocks: seq<seq<KV>>): Progress
  {
    ScanReads(csd, Reads(t, blocks), t.numOfBlocks, |blocks|)
  }

  // ---------------------------------------------------------------- SST path

  /** One row of the SST path: a row that does not fit first sends the batch off as 100 blocks. */
  function AddRow(p: Progress, r: Row, bufferSize: nat): Progress {
    Collect(if |Flatten(p.cur.rows)| + |r| > bufferSize then Emit(Account(p, 100)) else p, [r])
  }

  /** The SST path after the first k rows. */
  function AddRows(csd: int, rows: seq<Row>, bufferSize: nat, k: nat): Progress
    requires k <= |rows|
  {
    if k == 0 then Start(csd) else AddRow(AddRows(csd, rows, bufferSize, k - 1), rows[k - 1], bufferSize)
  }

  /** `sst_file_full_scan` over the rows of all files: what is left goes into the last batch. */
  function ScanRows(csd: int, rows: seq<Row>, bufferSize: nat): Progress {
    var p := AddRows(csd, rows, bufferSize, |rows|);
    Emit(Account(p, p.left))
  }

  // ---------------------------------------------------------------- conservation

  function OutRows(out: seq<Contents>): seq<Row> {
    if out == [] then [] else OutRows(out[..|out| - 1]) + out[|out| - 1].rows
  }

  function OutBlocks(out: seq<Contents>): int {
    if out == [] then 0 else OutBlocks(out[..|out| - 1]) + out[|out| - 1].blockCount
  }

  /** A scanned batch counts its own rows and nothing as filtered yet. */
  predicate Fresh(x: Contents) {
    x.scannedRows == |x.rows| && x.filteredRows == 0
  }

  /** In every state of a scan: emitted + held + left is csd_block_count, and the rows read so far
      are the emitted ones followed by the held ones. */
  predicate Conserves(p: Progress, csd: int, rows: seq<Row>) {
    && OutBlocks(p.out) + p.cur.blockCount + p.left == csd
    && OutRows(p.out) + p.cur.rows == rows
    && Fresh(p.cur) && forall i :: 0 <= i < |p.out| ==> Fresh(p.out[i])
  }

  lemma CollectConserves(p: Progress, csd: int, rows: seq<Row>, more: seq<Row>)
    requires Conserves(p, csd, rows)
    ensures Conserves(Collect(p, more), csd, rows + more)
  {
    CatIsConcat(p.cur.rows, more);
    assert OutRows(p.out) + (p.cur.rows + more) == (OutRows(p.out) + p.cur.rows) + more;
  }

  lemma OutSnoc(out: seq<Contents>, x: Contents)
    ensures OutRows(Cat(out, [x])) == OutRows(out) + x.rows && OutBlocks(Cat(out, [x])) == OutBlocks(out) + x.blockCount
  {
    CatIsConcat(out, [x]);
    assert (out + [x])[..|out|] == out;
  }

  lemma EmitConserves(p: Progress, csd: int, rows: seq<Row>)
    requires Conserves(p, csd, rows)
    ensures Conserves(Emit(p), csd, rows)
  {
    OutSnoc(p.out, p.cur);
  }

  lemma ReadBlockConserves(p: Progress, csd: int, rows: seq<Row>, x: Read, num: nat)
    requires Conserves(p, csd, rows)
    ensures Conserves(ReadBlock(p, x, num), csd, rows + x.rows)
  {
    var q := Collect(p, x.rows);
    CollectConserves(p, csd, rows, x.rows);
    EmitConserves(Account(q, q.left), csd, rows + x.rows);
    EmitConserves(Account(q, 1), csd, rows + x.rows);
  }

  function ReadRows(runs: seq<Read>, k: nat): seq<Row>
    requires k <= |runs|
  {
    if k == 0 then [] else Cat(ReadRows(runs, k - 1), runs[k - 1].rows)
  }

  lemma {:induction false} ScanReadsConserves(csd: int, runs: seq<Read>, num: nat, k: nat)
    requires k <= |runs|
    ensures Conserves(ScanReads(csd, runs, num, k), csd, ReadRows(runs, k))
    decreases k
  {
    if k > 0 {
      ScanReadsConserves(csd, runs, num, k - 1);
      CatIsConcat(ReadRows(runs, k - 1), runs[k - 1].rows);
      ReadBlockConserves(ScanReads(csd, runs, num, k - 1), csd, ReadRows(runs, k - 1), runs[k - 1], num);
    }
  }

  lemma RowsOfCat(a: seq<KV>, b: seq<KV>, rowOf: KV -> Row)
    ensures RowsOf(Cat(a, b), rowOf) == Cat(RowsOf(a, rowOf), RowsOf(b, rowOf))
  {
  }

  lemma {:induction false} ReadRowsOfBlocks(t: Input, blocks: seq<seq<KV>>, k: nat)
    requires k <= |blocks|
    ensures ReadRows(Reads(t, blocks), k) == RowsOf(AllBlockRows(blocks, t.below, t.mine, k), t.rowOf)
    decreases k
  {
    if k > 0 {
      ReadRowsOfBlocks(t, blocks, k - 1);
      assert Reads(t, blocks)[k - 1].rows == RowsOf(BlockRows(blocks[k - 1], t.below, t.mine), t.rowOf);
      RowsOfCat(AllBlockRows(blocks, t.below, t.mine, k - 1), BlockRows(blocks[k - 1], t.below, t.mine), t.rowOf);
    }
  }

  /** The block scan, after any number of blocks: nothing lost, nothing invented, in order. */
  lemma BlockScanConserves(t: Input, csd: int, blocks: seq<seq<KV>>, k: nat)
    requires k <= |blocks|
    ensures Conserves(ScanReads(csd, Reads(t, blocks), t.numOfBlocks, k), csd,
                      RowsOf(AllBlockRows(blocks, t.below, t.mine, k), t.rowOf))
  {
    ScanReadsConserves(csd, Reads(t, blocks), t.numOfBlocks, k);
    ReadRowsOfBlocks(t, blocks, k);
  }

  /** And in the middle of a block, after i of its rows. */
  lemma InsideBlockConserves(t: Input, csd: int, blocks: seq<seq<KV>>, k: nat, i: nat)
    requires k < |blocks| && i <= |BlockRows(blocks[k], t.below, t.mine)|
    ensures var p := ScanReads(csd, Reads(t, blocks), t.numOfBlocks, k);
      var rows := BlockRows(blocks[k], t.below, t.mine)[..i];
      Conserves(Collect(p, RowsOf(rows, t.rowOf)), csd,
                RowsOf(AllBlockRows(blocks, t.below, t.mine, k), t.rowOf) + RowsOf(rows, t.rowOf))
  {
    BlockScanConserves(t, csd, blocks, k);
    CollectConserves(ScanReads(csd, Reads(t, blocks), t.numOfBlocks, k), csd,
                     RowsOf(AllBlockRows(blocks, t.below, t.mine, k), t.rowOf),
                     RowsOf(BlockRows(blocks[k], t.below, t.mine)[..i], t.rowOf));
  }

  lemma {:induction false} AddRowsConserves(csd: int, rows: seq<Row>, bufferSize: nat, k: nat)
    requires k <= |rows|
    ensures Conserves(AddRows(csd, rows, bufferSize, k), csd, rows[..k])
    decreases k
  {
    if k == 0 {
      StartConserves(csd);
    } else {
      AddRowsConserves(csd, rows, bufferSize, k - 1);
      AddRowConserves(AddRows(csd, rows, bufferSize, k - 1), csd, rows, bufferSize, k);
    }
  }

  lemma StartConserves(csd: int)
    ensures Conserves(Start(csd), csd, [])
  {
  }

  lemma AddRowConserves(p: Progress, csd: int, rows: seq<Row>, bufferSize: nat, k: nat)
    requires 0 < k <= |rows| && Conserves(p, csd, rows[..k - 1])
    ensures Conserves(AddRow(p, rows[k - 1], bufferSize), csd, rows[..k])
  {
    var front, r := rows[..k - 1], rows[k - 1];
    EmitConserves(Account(p, 100), csd, front);
    CollectConserves(p, csd, front, [r]);
    CollectConserves(Emit(Account(p, 100)), csd, front, [r]);
    assert front + [r] == rows[..k];
  }

  lemma SstScanConserves(csd: int, rows: seq<Row>, bufferSize: nat)
    ensures var p := ScanRows(csd, rows, bufferSize);
      Conserves(p, csd, rows) && p.left == 0 && p.cur == EMPTY
  {
    var p := AddRows(csd, rows, bufferSize, |rows|);
    AddRowsConserves(csd, rows, bufferSize, |rows|);
    assert rows[..|rows|] == rows;
    EmitConserves(Account(p, p.left), csd, rows);
  }

  // ---------------------------------------------------------------- which counts are emitted

  /** j times `unit`. */
  function Multiple(unit: nat, j: nat): nat
    decreases j
  {
    if j == 0 then 0 else Multiple(unit, j - 1) + unit
  }

  lemma {:induction false} MultipleGrows(unit: nat, i: nat, j: nat)
    requires i <= j
    ensures Multiple(unit, i) <= Multiple(unit, j)
    ensures unit > 0 && i < j ==> Multiple(unit, i) < Multiple(unit, j)
    decreases j
  {
    if i < j {
      MultipleGrows(unit, i, j - 1);
    }
  }

  predicate EachCounts(out: seq<Contents>, unit: nat) {
    forall i :: 0 <= i < |out| ==> out[i].blockCount == unit
  }

  /** Batches of `unit` blocks each and a last one that makes up the total, whatever its sign. */
  predicate Uniform(out: seq<Contents>, unit: nat, csd: int) {
    && out != [] && EachCounts(out[..|out| - 1], unit)
    && out[|out| - 1].blockCount == csd - Multiple(unit, |out| - 1)
  }

  lemma UniformSnoc(out: seq<Contents>, x: Contents, unit: nat, csd: int)
    requires EachCounts(out, unit) && x.blockCount == csd - Multiple(unit, |out|)
    ensures Uniform(Cat(out, [x]), unit, csd)
  {
    CatIsConcat(out, [x]);
    assert (out + [x])[..|out|] == out;
  }

  /** Only full batches of 100 blocks have been sent off. */
  predicate Flushed(p: Progress, csd: int) {
    p.left == csd - Multiple(100, |p.out|) && p.cur.blockCount == 0 && EachCounts(p.out, 100)
  }

  lemma AddRowFlushed(p: Progress, r: Row, bufferSize: nat, csd: int)
    requires Flushed(p, csd)
    ensures Flushed(AddRow(p, r, bufferSize), csd)
  {
    CatIsConcat(p.out, [Account(p, 100).cur]);
  }

  /** Every flush of the SST path counts 100 blocks. */
  lemma {:induction false} SstFlushCounts(csd: int, rows: seq<Row>, bufferSize: nat, k: nat)
    requires k <= |rows|
    ensures Flushed(AddRows(csd, rows, bufferSize, k), csd)
    decreases k
  {
    if k > 0 {
      SstFlushCounts(csd, rows, bufferSize, k - 1);
      AddRowFlushed(AddRows(csd, rows, bufferSize, k - 1), rows[k - 1], bufferSize, csd);
    }
  }

  /** The last batch takes whatever is left, positive or not. */
  lemma SstScanCounts(csd: int, rows: seq<Row>, bufferSize: nat)
    ensures var out := ScanRows(csd, rows, bufferSize).out;
      Uniform(out, 100, csd) && |out| == Flushes(rows, bufferSize, |rows|) + 1
  {
    var p := AddRows(csd, rows, bufferSize, |rows|);
    SstFlushCounts(csd, rows, bufferSize, |rows|);
    FlushesAre(csd, rows, bufferSize, |rows|);
    UniformSnoc(p.out, Account(p, p.left).cur, 100, csd);
  }

  /** Each row that does not fit sends one batch off. */
  lemma {:induction false} FlushesAre(csd: int, rows: seq<Row>, bufferSize: nat, k: nat)
    requires k <= |rows|
    ensures var p := AddRows(csd, rows, bufferSize, k);
      |p.out| == Flushes(rows, bufferSize, k) && |Flatten(p.cur.rows)| == HeldLength(rows, bufferSize, k)
    decreases k
  {
    if k > 0 {
      FlushesAre(csd, rows, bufferSize, k - 1);
      AddRowLength(AddRows(csd, rows, bufferSize, k - 1), rows[k - 1], bufferSize);
    }
  }

  lemma AddRowLength(p: Progress, r: Row, bufferSize: nat)
    ensures var q, full := AddRow(p, r, bufferSize), |Flatten(p.cur.rows)| + |r| > bufferSize;
      && |q.out| == |p.out| + (if full then 1 else 0)
      && |Flatten(q.cur.rows)| == (if full then 0 else |Flatten(p.cur.rows)|) + |r|
  {
    CatLength(p.cur.rows, r);
    CatLength(EMPTY.rows, r);
  }

  lemma CatLength(rows: seq<Row>, r: Row)
    ensures |Flatten(Cat(rows, [r]))| == |Flatten(rows)| + |r|
  {
    CatIsConcat(rows, [r]);
    FlattenSnoc(rows, r);
  }

  predicate AllFit(p: Progress, bufferSize: nat) {
    FitsBuffer(p.cur, bufferSize) && forall i :: 0 <= i < |p.out| ==> FitsBuffer(p.out[i], bufferSize)
  }

  lemma AddRowFits(p: Progress, r: Row, bufferSize: nat)
    requires AllFit(p, bufferSize)
    ensures AllFit(AddRow(p, r, bufferSize), bufferSize)
  {
    CatLength(p.cur.rows, r);
    assert |Flatten(p.cur.rows)| + |r| > bufferSize ==> AddRow(p, r, bufferSize).cur.rows == [r];
    CatLength(EMPTY.rows, r);
  }

  lemma {:induction false} SstBatchesFit(csd: int, rows: seq<Row>, bufferSize: nat, k: nat)
    requires k <= |rows|
    ensures AllFit(AddRows(csd, rows, bufferSize, k), bufferSize)
    decreases k
  {
    if k > 0 {
      SstBatchesFit(csd, rows, bufferSize, k - 1);
      AddRowFits(AddRows(csd, rows, bufferSize, k - 1), rows[k - 1], bufferSize);
    }
  }

  /** After k blocks without an early end: full batches only, and a part of one held. */
  predicate Quiet(p: Progress, num: nat, csd: int, k: nat) {
    && p.left == csd - k && EachCounts(p.out, num)
    && p.cur.blockCount == k - Multiple(num, |p.out|) && 0 <= p.cur.blockCount < num
  }

  lemma QuietStep(p: Progress, x: Read, num: nat, csd: int, k: nat)
    requires Quiet(p, num, csd, k) && !x.crossed && csd != k + 1
    ensures Quiet(ReadBlock(p, x, num), num, csd, k + 1)
  {
    var r := Account(Collect(p, x.rows), 1);
    CatIsConcat(p.out, [r.cur]);
  }

  /** As long as no block ends the run and `left` has not reached 0, batches leave when full. */
  lemma {:induction false} QuietScan(csd: int, runs: seq<Read>, num: nat, k: nat)
    requires num > 0 && k <= |runs| && !(1 <= csd <= k)
    requires forall i :: 0 <= i < k ==> !runs[i].crossed
    ensures Quiet(ScanReads(csd, runs, num, k), num, csd, k)
    decreases k
  {
    if k > 0 {
      QuietScan(csd, runs, num, k - 1);
      QuietStep(ScanReads(csd, runs, num, k - 1), runs[k - 1], num, csd, k - 1);
    }
  }

  /** The block that accounts for all that is left: another table begins in it, or it is the last
      one counted. */
  lemma LastStep(p: Progress, x: Read, num: nat, csd: int, k: nat)
    requires Quiet(p, num, csd, k) && (x.crossed || csd == k + 1)
    ensures var q := ReadBlock(p, x, num);
      q.left == 0 && q.cur == EMPTY && Uniform(q.out, num, csd) && |q.out| == |p.out| + 1
  {
    var q := Collect(p, x.rows);
    var r := Account(q, if x.crossed then q.left else 1);
    UniformSnoc(p.out, r.cur, num, csd);
    CatIsConcat(p.out, [r.cur]);
  }

  /** No block before the last reaches a key beyond the table. */
  predicate EndsInLastBlock(t: Input, blocks: seq<seq<KV>>) {
    forall i :: 0 <= i < |blocks| - 1 ==> !Crosses(blocks[i], t.below, t.mine)
  }

  /** The scan accounts for csd_block_count in its last block and not before. */
  predicate EndsWhole(t: Input, csd: int, blocks: seq<seq<KV>>) {
    && blocks != [] && EndsInLastBlock(t, blocks)
    && if Crosses(blocks[|blocks| - 1], t.below, t.mine) then !(1 <= csd < |blocks|) else csd == |blocks|
  }

  predicate AllPositive(out: seq<Contents>) {
    forall i :: 0 <= i < |out| ==> out[i].blockCount > 0
  }

  /** Such a scan holds nothing back. Its batches are full ones and a last one with the rest, and
      all counts are positive if csd_block_count is. */
  lemma CleanBlockScan(t: Input, csd: int, blocks: seq<seq<KV>>)
    requires t.numOfBlocks > 0 && EndsWhole(t, csd, blocks)
    ensures var p := ScanBlocks(t, csd, blocks);
      && p.left == 0 && p.cur == EMPTY && Uniform(p.out, t.numOfBlocks, csd)
      && Multiple(t.numOfBlocks, |p.out| - 1) < |blocks|
      && (csd > 0 ==> AllPositive(p.out))
  {
    var runs, k := Reads(t, blocks), |blocks| - 1;
    QuietScan(csd, runs, t.numOfBlocks, k);
    LastStep(ScanReads(csd, runs, t.numOfBlocks, k), runs[k], t.numOfBlocks, csd, k);
    UniformPositive(ScanBlocks(t, csd, blocks).out, t.numOfBlocks, csd);
  }

  lemma UniformPositive(out: seq<Contents>, unit: nat, csd: int)
    requires Uniform(out, unit, csd) && unit > 0
    ensures csd > Multiple(unit, |out| - 1) ==> AllPositive(out)
  {
    forall i | 0 <= i < |out| && csd > Multiple(unit, |out| - 1) ensures out[i].blockCount > 0 {
      assert i < |out| - 1 ==> out[i] == out[..|out| - 1][i];
    }
  }

  // ---------------------------------------------------------------- scans that end early

  /** Everything is accounted for and emitted after k blocks, and there are more to come. */
  predicate EndsEarly(csd: int, runs: seq<Read>, num: nat, k: nat) {
    0 < k < |runs| && ScanReads(csd, runs, num, k).left == 0 && ScanReads(csd, runs, num, k).cur == EMPTY
  }

  /** Without an emission, the blocks read since are all in the current batch. */
  lemma {:induction false} EmittedOrHeld(csd: int, runs: seq<Read>, num: nat, k: nat, m: nat)
    requires k <= m <= |runs| && ScanReads(csd, runs, num, k).cur == EMPTY
    ensures var p, q := ScanReads(csd, runs, num, k), ScanReads(csd, runs, num, m);
      |q.out| > |p.out| || (q.out == p.out && q.cur.blockCount == m - k)
    decreases m
  {
    if k < m {
      EmittedOrHeld(csd, runs, num, k, m - 1);
      OneMoreHeld(ScanReads(csd, runs, num, k).out, ScanReads(csd, runs, num, m - 1), runs[m - 1], num, m - 1 - k);
    }
  }

  lemma OneMoreHeld(out: seq<Contents>, p: Progress, x: Read, num: nat, n: nat)
    requires |p.out| > |out| || (p.out == out && p.cur.blockCount == n)
    ensures var q := ReadBlock(p, x, num);
      |q.out| > |out| || (q.out == out && q.cur.blockCount == n + 1)
  {
  }

  /** A scan that ends early and holds nothing back at the end has emitted a part of its batches
      that already adds up to csd_block_count. */
  lemma EarlyEndSplits(csd: int, runs: seq<Read>, num: nat, k: nat) returns (j: nat)
    requires EndsEarly(csd, runs, num, k) && ScanReads(csd, runs, num, |runs|).cur == EMPTY
    ensures var out := ScanReads(csd, runs, num, |runs|).out;
      0 < j < |out| && OutBlocks(out[..j]) == csd
  {
    var p, out := ScanReads(csd, runs, num, k), ScanReads(csd, runs, num, |runs|).out;
    j := |p.out|;
    EmittedOrHeld(csd, runs, num, 0, k);
    EmittedOrHeld(csd, runs, num, k, |runs|);
    ScanReadsConserves(csd, runs, num, k);
    forall i | 0 <= i < j ensures out[i] == p.out[i] {
      OutKept(csd, runs, num, k, |runs|, i);
    }
    assert out[..j] == p.out;
  }

  /** A block before the last that ends the run, or a count that runs out before the last block,
      ends the scan early. */
  lemma EndsEarlyWhen(t: Input, csd: int, blocks: seq<seq<KV>>) returns (k: nat)
    requires t.numOfBlocks > 0 && blocks != []
    requires !EndsInLastBlock(t, blocks) || 1 <= csd < |blocks|
    ensures EndsEarly(csd, Reads(t, blocks), t.numOfBlocks, k)
  {
    var runs, num := Reads(t, blocks), t.numOfBlocks;
    if b :| 0 <= b < |blocks| - 1 && Crosses(blocks[b], t.below, t.mine) {
      k := b + 1;
      CrossingRead(ScanReads(csd, runs, num, b), runs[b], num);
    } else {
      k := csd;
      QuietScan(csd, runs, num, k - 1);
      LastStep(ScanReads(csd, runs, num, k - 1), runs[k - 1], num, csd, k - 1);
    }
  }

  /** If no block ends the run and the count does not run out, what is emitted and held adds up to
      the blocks read. */
  lemma BlocksRead(t: Input, csd: int, blocks: seq<seq<KV>>)
    requires t.numOfBlocks > 0 && !(1 <= csd <= |blocks|)
    requires forall i :: 0 <= i < |blocks| ==> !Crosses(blocks[i], t.below, t.mine)
    ensures var p := ScanBlocks(t, csd, blocks);
      OutBlocks(p.out) + p.cur.blockCount == |blocks|
  {
    QuietScan(csd, Reads(t, blocks), t.numOfBlocks, |blocks|);
    ScanReadsConserves(csd, Reads(t, blocks), t.numOfBlocks, |blocks|);
  }

  /** The count has run out, and the blocks read since are all held. */
  predicate Over(q: Progress, p: Progress, held: nat) {
    q.out == p.out && q.left + held == 0 && q.cur.blockCount == held
  }

  lemma OverStep(q: Progress, p: Progress, held: nat, x: Read, num: nat)
    requires Over(q, p, held) && !x.crossed && held + 1 < num
    ensures Over(ReadBlock(q, x, num), p, held + 1)
  {
  }

  /** Blocks read after everything was accounted for, too few to fill a batch, stay in the current
      batch. */
  lemma {:induction false} HeldBack(csd: int, runs: seq<Read>, num: nat, e: nat, m: nat)
    requires e <= m <= |runs| && m - e < num && forall i :: e <= i < m ==> !runs[i].crossed
    requires ScanReads(csd, runs, num, e).left == 0 && ScanReads(csd, runs, num, e).cur == EMPTY
    ensures Over(ScanReads(csd, runs, num, m), ScanReads(csd, runs, num, e), m - e)
    decreases m
  {
    if e < m {
      HeldBack(csd, runs, num, e, m - 1);
      OverStep(ScanReads(csd, runs, num, m - 1), ScanReads(csd, runs, num, e), m - 1 - e, runs[m - 1], num);
    }
  }

  /** Since the last emission after e blocks, all blocks are held. */
  predicate Since(q: Progress, p: Progress, held: nat, num: nat) {
    p.cur == EMPTY && q.out == p.out && q.left == p.left - held && q.cur.blockCount == held < num
  }

  lemma SinceStep(q: Progress, p: Progress, held: nat, x: Read, num: nat)
    requires Since(q, p, held, num)
    ensures var r := ReadBlock(q, x, num);
      && (|r.out| == |q.out| ==> !x.crossed && Since(r, p, held + 1, num))
      && (|r.out| != |q.out| ==> Since(r, r, 0, num))
  {
  }

  /** Where the last batch left the scan. */
  lemma {:induction false} LastEmission(csd: int, runs: seq<Read>, num: nat, m: nat) returns (e: nat)
    requires num > 0 && m <= |runs|
    ensures e <= m && (forall i :: e <= i < m ==> !runs[i].crossed)
    ensures Since(ScanReads(csd, runs, num, m), ScanReads(csd, runs, num, e), m - e, num)
    decreases m
  {
    if m == 0 {
      e := 0;
    } else {
      e := LastEmission(csd, runs, num, m - 1);
      var q := ScanReads(csd, runs, num, m - 1);
      SinceStep(q, ScanReads(csd, runs, num, e), m - 1 - e, runs[m - 1], num);
      if |ScanReads(csd, runs, num, m).out| != |q.out| {
        e := m;
      }
    }
  }

  lemma ReadBlockKeeps(p: Progress, x: Read, num: nat, i: nat)
    requires i < |p.out|
    ensures var q := ReadBlock(p, x, num);
      i < |q.out| && q.out[i] == p.out[i]
  {
  }

  /** A batch, once emitted, stays. */
  lemma {:induction false} OutKept(csd: int, runs: seq<Read>, num: nat, k: nat, m: nat, i: nat)
    requires k <= m <= |runs| && i < |ScanReads(csd, runs, num, k).out|
    ensures var out := ScanReads(csd, runs, num, m).out;
      i < |out| && out[i] == ScanReads(csd, runs, num, k).out[i]
    decreases m
  {
    if k < m {
      OutKept(csd, runs, num, k, m - 1, i);
      var p := ScanReads(csd, runs, num, m - 1);
      ReadBlockKeeps(p, runs[m - 1], num, i);
      assert ScanReads(csd, runs, num, m) == ReadBlock(p, runs[m - 1], num);
    }
  }

  lemma CrossingRead(p: Progress, x: Read, num: nat)
    requires x.crossed
    ensures var q := ReadBlock(p, x, num);
      && q.cur == EMPTY && q.left == 0 && |q.out| == |p.out| + 1
      && (p.cur == EMPTY && p.left == 0 && x.rows == [] ==> q.out[|p.out|] == EMPTY)
  {
  }

  /** If a block before the last crosses into another table, the next block emits an empty batch
      that counts no block, after the batch that took all that was left. */
  lemma EarlyEndEmitsZero(t: Input, n: int, csd: int, blocks: seq<seq<KV>>, b: nat) returns (i: nat)
    requires Int32(n) && t.below == Below(n) && t.mine == Mine(n)
    requires WellFormedBlocks(blocks) && b + 1 < |blocks| && blocks[b + 1] != []
    requires Crosses(blocks[b], t.below, t.mine)
    ensures var out := ScanBlocks(t, csd, blocks).out;
      0 < i < |out| && out[i] == EMPTY
  {
    var runs := Reads(t, blocks);
    CrossingStays(blocks, n, b, b + 1);
    assert runs[b].crossed && runs[b + 1].crossed && runs[b + 1].rows == [];
    i := SecondCrossing(csd, runs, t.numOfBlocks, b);
  }

  lemma SecondCrossing(csd: int, runs: seq<Read>, num: nat, b: nat) returns (i: nat)
    requires b + 1 < |runs| && runs[b].crossed && runs[b + 1].crossed && runs[b + 1].rows == []
    ensures var out := ScanReads(csd, runs, num, |runs|).out;
      0 < i < |out| && out[i] == EMPTY
  {
    var p := ScanReads(csd, runs, num, b + 1);
    CrossingRead(ScanReads(csd, runs, num, b), runs[b], num);
    CrossingRead(p, runs[b + 1], num);
    i := |p.out|;
    OutKept(csd, runs, num, b + 2, |runs|, i);
  }

  // ---------------------------------------------------------------- the scan as the source writes it

  function Batches(out: seq<Contents>): seq<Data> {
    seq(|out|, i requires 0 <= i < |out| => SealedLayout(out[i]))
  }

  lemma ScanOneMore(t: Input, csd: int, blocks: seq<seq<KV>>, i: nat)
    requires i < |blocks|
    ensures ScanReads(csd, Reads(t, blocks), t.numOfBlocks, i + 1) ==
      ReadBlock(ScanReads(csd, Reads(t, blocks), t.numOfBlocks, i), ReadOf(t, blocks[i]), t.numOfBlocks)
  {
    assert Reads(t, blocks)[i] == ReadOf(t, blocks[i]);
  }

  function After(t: Input, csd: int, blocks: seq<seq<KV>>): nat -> Progress {
    (i: nat) => if i <= |blocks| then ScanReads(csd, Reads(t, blocks), t.numOfBlocks, i) else Start(csd)
  }

  class Scanner {
    const t: Input
    var data: Data
    var left: int
    var emitted: seq<Data>
    ghost var p: Progress

    ghost predicate Valid()
      reads this
    {
      data == Layout(p.cur) && left == p.left && emitted == Batches(p.out)
    }

    constructor (t: Input, csdBlockCount: int)
      ensures this.t == t && Valid() && p == Start(csdBlockCount)
    {
      this.t := t;
      data := Data([], [], 0, 0, 0, 0);
      left := csdBlockCount;
      emitted := [];
      p := Start(csdBlockCount);
    }

    /** Seal the batch, hand it on, clear the buffer. */
    method EnqueueScanResult()
      requires Valid()
      modifies this
      ensures Valid() && p == Emit(old(p))
    {
      emitted := emitted + [Seal(data)];
      data := Data([], [], 0, 0, 0, 0);
      p := Emit(p);
    }

    method AppendScanned(row: Row)
      requires Valid()
      modifies this`data, this`p
      ensures Valid() && p == Collect(old(p), [row])
    {
      AppendLayout(p.cur, row);
      data := Append(data, row).(scannedRows := data.scannedRows + 1);
      p := Collect(p, [row]);
    }

    /** The iterator loop: append rows until the block ends or another table begins. */
    method AppendRun(block: seq<KV>) returns (crossed: bool)
      requires Valid()
      modifies this`data, this`p
      ensures Valid() && crossed == Crosses(block, t.below, t.mine)
      ensures p == Collect(old(p), RowsOf(BlockRows(block, t.below, t.mine), t.rowOf))
    {
      var start := SkipWhile(block, t.below, 0);
      var i := start;
      while i < |block| && t.mine(block[i])
        invariant start <= i <= |block| && Valid()
        invariant SkipWhile(block, t.mine, i) == SkipWhile(block, t.mine, start)
        invariant p == Collect(old(p), RowsOf(block[start..i], t.rowOf))
      {
        CollectOneMore(old(p), block, start, i, t.rowOf);
        AppendScanned(t.rowOf(block[i]));
        i := i + 1;
      }
      crossed := i < |block|;
    }

    method ReadDataBlock(block: seq<KV>)
      requires Valid()
      modifies this
      ensures Valid()
      ensures p == ReadBlock(old(p), ReadOf(t, block), t.numOfBlocks)
    {
      var crossed := AppendRun(block);
      if crossed {
        data := data.(blockCount := data.blockCount + left);
        p := Account(p, p.left);
        left := 0;
        EnqueueScanResult();
        return;
      }
      data := data.(blockCount := data.blockCount + 1);
      left := left - 1;
      p := Account(p, 1);
      if data.blockCount == t.numOfBlocks || left == 0 {
        EnqueueScanResult();
      }
    }

    /** The loop over the block list; `after(i)` is where i blocks lead. */
    method ReadBlocks(blocks: seq<seq<KV>>, ghost after: nat -> Progress)
      requires Valid() && p == after(0)
      requires forall i :: 0 <= i < |blocks| ==>
        after(i + 1) == ReadBlock(after(i), ReadOf(t, blocks[i]), t.numOfBlocks)
      modifies this
      ensures Valid() && p == after(|blocks|)
    {
      for i := 0 to |blocks|
        invariant Valid() && p == after(i)
      {
        ReadDataBlock(blocks[i]);
      }
    }

    method DataBlockFullScan(blocks: seq<seq<KV>>, ghost csd: int)
      requires Valid() && p == Start(csd)
      modifies this
      ensures Valid() && p == ScanBlocks(t, csd, blocks)
    {
      ghost var after := After(t, csd, blocks);
      forall i | 0 <= i < |blocks|
        ensures after(i + 1) == ReadBlock(after(i), ReadOf(t, blocks[i]), t.numOfBlocks)
      {
        ScanOneMore(t, csd, blocks, i);
      }
      ReadBlocks(blocks, after);
    }

    method AddSstRow(row: Row)
      requires Valid()
      modifies this
      ensures Valid() && p == AddRow(old(p), row, t.bufferSize)
    {
      if |data.raw| + |row| > t.bufferSize {
        data := data.(blockCount := data.blockCount + 100);
        left := left - 100;
        p := Account(p, 100);
        EnqueueScanResult();
      }
      AppendScanned(row);
    }

    /** `rows` is what the bounded iterators over all files yield. */
    method SstFileFullScan(rows: seq<Row>, ghost csd: int)
      requires Valid() && p == Start(csd)
      modifies this
      ensures Valid() && p == ScanRows(csd, rows, t.bufferSize)
    {
      for i := 0 to |rows|
        invariant Valid() && p == AddRows(csd, rows, t.bufferSize, i)
      {
        AddSstRow(rows[i]);
      }
      data := data.(blockCount := data.blockCount + left);
      p := Account(p, p.left);
      left := 0;
      EnqueueScanResult();
    }
  }

  lemma CollectOneMore(p: Progress, block: seq<KV>, start: nat, i: nat, rowOf: KV -> Row)
    requires start <= i < |block|
    ensures Collect(Collect(p, RowsOf(block[start..i], rowOf)), [rowOf(block[i])])
         == Collect(p, RowsOf(block[start..i + 1], rowOf))
  {
    var a, b := RowsOf(block[start..i], rowOf), RowsOf(block[start..i + 1], rowOf);
    assert b == a + [rowOf(block[i])];
    assert p.cur.rows + a + [rowOf(block[i])] == p.cur.rows + b;
  }
}
