/** Scan, filter, projection and return together: what a snippet's results are, from the keys on
    the device to the packets handed to the return layer. */
module Pipeline {
  import opened RowData
  import opened Sequences
  import opened KeyRange
  import opened Scan
  import opened ScanEnds
  import opened FilterStage
  import opened Where
  import opened Projection
  import opened ProjectionSafety
  import opened ProjectionRuns
  import opened ProjectionCounts
  import opened ProjectionEnds
  import opened ProjectionBounds

  /** The batches of k in c are the scan's batches after the filter stage; every other batch, if
      any, belongs to another snippet. Arrival order is up to the schedule, so their numbering is
      immaterial. */
  predicate Feeds(c: Config, k: Key, at: nat, out: seq<Contents>, passes: Row -> bool) {
    && at + |out| <= |c.batches|
    && (forall b :: 0 <= b < |c.batches| ==> (c.batches[b].key == k <==> at <= b < at + |out|))
    && (forall i :: 0 <= i < |out| ==> c.batches[at + i].data == FilterBatch(out[i], passes))
  }

  /** The same before the filter stage: every batch of the scan goes the way `enqueue_scan_result`
      sends it, with the WHERE list of the snippet. */
  predicate Routed<C(!new)>(c: Config, k: Key, at: nat, out: seq<Contents>, ws: seq<Clause<C>>, holds: (C, Row) -> bool)
    requires Alternating(ws)
  {
    && at + |out| <= |c.batches|
    && (forall b :: 0 <= b < |c.batches| ==> (c.batches[b].key == k <==> at <= b < at + |out|))
    && (forall i :: 0 <= i < |out| ==> c.batches[at + i].data == Route(out[i], ws, holds))
  }

  lemma RoutedFeeds<C(!new)>(c: Config, k: Key, at: nat, out: seq<Contents>, ws: seq<Clause<C>>,
                             holds: (C, Row) -> bool)
    requires Alternating(ws) && Routed(c, k, at, out, ws, holds) && forall i :: 0 <= i < |out| ==> Fresh(out[i])
    ensures Feeds(c, k, at, out, RowPasses(ws, holds))
  {
    forall i | 0 <= i < |out| ensures c.batches[at + i].data == FilterBatch(out[i], RowPasses(ws, holds)) {
      RouteIsFilter(out[i], ws, holds);
    }
  }

  /** How many of the first n batches of c are among those of k. */
  function Taken(at: nat, total: nat, n: nat): (m: nat)
    ensures m <= total
  {
    if n <= at then 0 else if n <= at + total then n - at else total
  }

  function Project(rows: seq<Row>, project: Row -> Row): seq<Row> {
    seq(|rows|, i requires 0 <= i < |rows| => project(rows[i]))
  }

  function ProjectFor(c: Config, k: Key): Row -> Row {
    row => c.project(k, row)
  }

  /** The batches at, ..., at+j-1. */
  function Span(at: nat, j: nat): (S: set<nat>)
    ensures forall b: nat :: b in S <==> at <= b < at + j
    decreases j
  {
    if j == 0 then {} else Span(at, j - 1) + {at + j - 1}
  }

  lemma {:induction false} CountsOfScan(c: Config, k: Key, at: nat, out: seq<Contents>, passes: Row -> bool, j: nat,
                                        n: nat)
    requires Feeds(c, k, at, out, passes) && n <= |c.batches| && j <= |out|
    ensures SumBlocks(c, Span(at, j), n) == OutBlocks(out[..Taken(at, j, n)])
    decreases n
  {
    if n > 0 {
      CountsOfScan(c, k, at, out, passes, j, n - 1);
      var m := Taken(at, j, n);
      if at < n <= at + j {
        assert out[..m][..m - 1] == out[..m - 1];
        assert c.batches[at + (m - 1)].data == FilterBatch(out[m - 1], passes);
      }
    }
  }

  lemma ProjectConcat(a: seq<Row>, b: seq<Row>, f: Row -> Row)
    ensures Project(a + b, f) == Project(a, f) + Project(b, f)
  {
  }

  /** One more batch of the scan, filtered and projected. */
  lemma OneMoreBatch(out: seq<Contents>, m: nat, passes: Row -> bool, f: Row -> Row)
    requires 0 < m <= |out|
    ensures OutRows(out[..m]) == OutRows(out[..m - 1]) + out[m - 1].rows
    ensures Filter(OutRows(out[..m]), passes) == Filter(OutRows(out[..m - 1]), passes) + Filter(out[m - 1].rows, passes)
    ensures Project(Filter(OutRows(out[..m]), passes), f) ==
      Project(Filter(OutRows(out[..m - 1]), passes), f) + Project(Filter(out[m - 1].rows, passes), f)
  {
    assert out[..m][..m - 1] == out[..m - 1];
    FilterConcat(OutRows(out[..m - 1]), out[m - 1].rows, passes);
    ProjectConcat(Filter(OutRows(out[..m - 1]), passes), Filter(out[m - 1].rows, passes), f);
  }

  lemma ProjectedBatch(c: Config, k: Key, at: nat, out: seq<Contents>, passes: Row -> bool, i: nat)
    requires Feeds(c, k, at, out, passes) && i < |out|
    ensures Projected(c, at + i).rows == Project(Filter(out[i].rows, passes), ProjectFor(c, k))
  {
    assert c.batches[at + i].data == FilterBatch(out[i], passes);
    assert c.batches[at + i].key == k;
  }

  /** The rows of the first m batches, filtered and projected. */
  function Expected(out: seq<Contents>, m: nat, passes: Row -> bool, f: Row -> Row): seq<Row>
    requires m <= |out|
  {
    Project(Filter(OutRows(out[..m]), passes), f)
  }

  lemma ExpectedNext(out: seq<Contents>, m: nat, passes: Row -> bool, f: Row -> Row, got: seq<Row>, more: seq<Row>)
    requires 0 < m <= |out| && got == Expected(out, m - 1, passes, f)
    requires more == Project(Filter(out[m - 1].rows, passes), f)
    ensures Cat(got, more) == Expected(out, m, passes, f)
  {
    OneMoreBatch(out, m, passes, f);
    CatIsConcat(got, more);
  }

  lemma {:induction false} RowsOfScan(c: Config, k: Key, at: nat, out: seq<Contents>, passes: Row -> bool, n: nat)
    requires Feeds(c, k, at, out, passes) && n <= |c.batches|
    ensures ProjectedRows(c, k, n) == Expected(out, Taken(at, |out|, n), passes, ProjectFor(c, k))
    decreases n
  {
    if n > 0 {
      RowsOfScan(c, k, at, out, passes, n - 1);
      var m := Taken(at, |out|, n);
      if at < n <= at + |out| {
        ProjectedBatch(c, k, at, out, passes, m - 1);
        ExpectedNext(out, m, passes, ProjectFor(c, k), ProjectedRows(c, k, n - 1), Projected(c, n - 1).rows);
      }
    }
  }

  /** The rows of the first m batches, and those of them that pass. */
  function ScannedIn(out: seq<Contents>, m: nat): nat
    requires m <= |out|
  {
    |OutRows(out[..m])|
  }

  function PassedIn(out: seq<Contents>, m: nat, passes: Row -> bool): nat
    requires m <= |out|
  {
    |Filter(OutRows(out[..m]), passes)|
  }

  lemma CountsNext(out: seq<Contents>, m: nat, passes: Row -> bool)
    requires 0 < m <= |out|
    ensures ScannedIn(out, m) == ScannedIn(out, m - 1) + |out[m - 1].rows|
    ensures PassedIn(out, m, passes) == PassedIn(out, m - 1, passes) + |Filter(out[m - 1].rows, passes)|
  {
    OneMoreBatch(out, m, passes, row => row);
  }

  lemma {:induction false} TotalsOfScan(c: Config, k: Key, at: nat, out: seq<Contents>, passes: Row -> bool, n: nat)
    requires Feeds(c, k, at, out, passes) && n <= |c.batches| && forall i :: 0 <= i < |out| ==> Fresh(out[i])
    ensures BatchTotal(c, k, n, ScannedRows) == ScannedIn(out, Taken(at, |out|, n))
    ensures BatchTotal(c, k, n, FilteredRows) == PassedIn(out, Taken(at, |out|, n), passes)
    decreases n
  {
    if n > 0 {
      TotalsOfScan(c, k, at, out, passes, n - 1);
      var m := Taken(at, |out|, n);
      if at < n <= at + |out| {
        CountsNext(out, m, passes);
        assert c.batches[at + (m - 1)].data == FilterBatch(out[m - 1], passes);
      }
    }
  }

  lemma BatchesAreSpan(c: Config, k: Key, at: nat, out: seq<Contents>, passes: Row -> bool)
    requires Feeds(c, k, at, out, passes)
    ensures BatchesOf(c, k) == Span(at, |out|)
  {
  }

  lemma BlocksOfScan(c: Config, k: Key, at: nat, out: seq<Contents>, passes: Row -> bool)
    requires Feeds(c, k, at, out, passes)
    ensures Blocks(c, BatchesOf(c, k)) == OutBlocks(out)
  {
    BatchesAreSpan(c, k, at, out, passes);
    CountsOfScan(c, k, at, out, passes, |out|, |c.batches|);
    assert out[..|out|] == out;
  }

  /** A part of the batches that already adds up to the total breaks the release condition. */
  lemma EarlyTotalSplits(c: Config, k: Key, at: nat, out: seq<Contents>, passes: Row -> bool, j: nat)
    requires Feeds(c, k, at, out, passes) && 0 < j < |out| && OutBlocks(out[..j]) == c.total(k)
    ensures !WholeOnly(c, k)
  {
    CountsOfScan(c, k, at, out, passes, j, |c.batches|);
    BatchesAreSpan(c, k, at, out, passes);
    assert at in Span(at, j) && at + j in Span(at, |out|) && at + j !in Span(at, j);
    assert Span(at, j) < BatchesOf(c, k) && Blocks(c, Span(at, j)) == c.total(k);
  }

  // ---------------------------------------------------------------- what arrives

  /** Everything the snippet asked for has been returned, once: the projected passing rows as a
      multiset, and the three totals. Nothing of it is left behind. */
  predicate Delivered(c: Config, s: State, k: Key, rows: seq<Row>, passes: Row -> bool) {
    && Flags(s.returned, k) == 1
    && k !in s.counts && (forall w :: 0 <= w < |s.workers| ==> k !in s.workers[w].buffers)
    && multiset(ReturnedRows(s.returned, k)) == multiset(Project(Filter(rows, passes), ProjectFor(c, k)))
    && Sent(s.returned, k, BlockCount) == c.total(k)
    && Sent(s.returned, k, ScannedRows) == |rows|
    && Sent(s.returned, k, FilteredRows) == |Filter(rows, passes)|
  }

  lemma DeliveredAtTheEnd(c: Config, k: Key, at: nat, out: seq<Contents>, passes: Row -> bool, rows: seq<Row>,
                          steps: seq<Step>)
    requires Feeds(c, k, at, out, passes) && out != [] && (forall i :: 0 <= i < |out| ==> Fresh(out[i]))
    requires OutRows(out) == rows && c.workers > 0 && WholeOnly(c, k) && Complete(c, steps)
    ensures Delivered(c, Exec(c, Init(c), steps).state, k, rows, passes)
  {
    assert out[..|out|] == out;
    assert at in BatchesOf(c, k) by {
      assert c.batches[at].key == k;
    }
    EveryRunCompletes(c, steps);
    ReleasedExactlyOnce(c, steps, k);
    RowsOfScan(c, k, at, out, passes, |c.batches|);
    TotalsOfScan(c, k, at, out, passes, |c.batches|);
    BlockTotalIsSum(c, k, |c.batches|);
  }

  /** Whatever the arrival order and the interleaving, a complete run delivers. */
  ghost predicate AlwaysDelivered(c: Config, k: Key, rows: seq<Row>, passes: Row -> bool) {
    forall steps: seq<Step> | Complete(c, steps) :: Delivered(c, Exec(c, Init(c), steps).state, k, rows, passes)
  }

  /** What delivery needs of the batches. */
  lemma DeliveryNeeds(c: Config, k: Key, at: nat, out: seq<Contents>, passes: Row -> bool, rows: seq<Row>)
    requires Feeds(c, k, at, out, passes) && (forall i :: 0 <= i < |out| ==> Fresh(out[i])) && c.workers > 0
    requires AlwaysDelivered(c, k, rows, passes)
    ensures BatchesOf(c, k) != {} && WholeOnly(c, k) && |OutRows(out)| == |rows|
  {
    forall steps: seq<Step> | Complete(c, steps) ensures Settled(c, Exec(c, Init(c), steps).state, k) {
      assert Delivered(c, Exec(c, Init(c), steps).state, k, rows, passes);
    }
    SettledExactly(c, k);
    BatchesAreSpan(c, k, at, out, passes);
    assert Exec(c, Init(c), []) == At(Init(c));
    var steps := Completion(c, []);
    assert [] + steps == steps;
    DeliveredAtTheEnd(c, k, at, out, passes, OutRows(out), steps);
  }

  /** And what suffices. */
  lemma DeliverySuffices(c: Config, k: Key, at: nat, out: seq<Contents>, passes: Row -> bool, rows: seq<Row>)
    requires Feeds(c, k, at, out, passes) && (forall i :: 0 <= i < |out| ==> Fresh(out[i])) && c.workers > 0
    requires BatchesOf(c, k) != {} && WholeOnly(c, k) && OutRows(out) == rows
    ensures AlwaysDelivered(c, k, rows, passes)
  {
    BatchesAreSpan(c, k, at, out, passes);
    forall steps: seq<Step> | Complete(c, steps)
      ensures Delivered(c, Exec(c, Init(c), steps).state, k, rows, passes)
    {
      DeliveredAtTheEnd(c, k, at, out, passes, rows, steps);
    }
  }

  // ---------------------------------------------------------------- uniform counts

  /** How many of at, ..., at+m-1 are in S. */
  function Members(S: set<nat>, at: nat, m: nat): nat {
    if m == 0 then 0 else Members(S, at, m - 1) + (if at + m - 1 in S then 1 else 0)
  }

  lemma {:induction false} MembersBound(S: set<nat>, at: nat, m: nat)
    ensures Members(S, at, m) <= m
    ensures Members(S, at, m) == m <==> forall i :: at <= i < at + m ==> i in S
    ensures Members(S, at, m) == 0 <==> forall i :: at <= i < at + m ==> i !in S
    decreases m
  {
    if m > 0 {
      MembersBound(S, at, m - 1);
    }
  }

  lemma {:induction false} FirstMembers(at: nat, j: nat, m: nat)
    ensures Members(Span(at, j), at, m) == if m <= j then m else j
    decreases m
  {
    if m > 0 {
      FirstMembers(at, j, m - 1);
    }
  }

  /** f batches of `unit` blocks each, then one that makes up the total. */
  predicate Units(c: Config, at: nat, f: nat, unit: nat, csd: int) {
    && at + f < |c.batches|
    && (forall i :: at <= i < at + f ==> c.batches[i].data.blockCount == unit)
    && c.batches[at + f].data.blockCount == csd - Multiple(unit, f)
  }

  lemma UnitsOfScan(c: Config, k: Key, at: nat, out: seq<Contents>, passes: Row -> bool, unit: nat, csd: int)
    requires Feeds(c, k, at, out, passes) && Uniform(out, unit, csd)
    ensures Units(c, at, |out| - 1, unit, csd)
  {
    var f := |out| - 1;
    forall i | at <= i < at + f ensures c.batches[i].data.blockCount == unit {
      assert c.batches[at + (i - at)].data == FilterBatch(out[i - at], passes);
      assert out[..f][i - at] == out[i - at];
    }
    assert c.batches[at + f].data == FilterBatch(out[f], passes);
  }

  lemma {:induction false} SumOfUnits(c: Config, S: set<nat>, at: nat, f: nat, unit: nat, csd: int, n: nat)
    requires Units(c, at, f, unit, csd) && n <= |c.batches| && S <= Span(at, f + 1)
    ensures SumBlocks(c, S, n) == Multiple(unit, Members(S, at, Taken(at, f, n)))
      + (if n > at + f && at + f in S then csd - Multiple(unit, f) else 0)
    decreases n
  {
    if n > 0 {
      SumOfUnits(c, S, at, f, unit, csd, n - 1);
      assert n - 1 in S ==> n - 1 in Span(at, f + 1);
    }
  }

  lemma UnitsBlocks(c: Config, S: set<nat>, at: nat, f: nat, unit: nat, csd: int)
    requires Units(c, at, f, unit, csd) && S <= Span(at, f + 1)
    ensures Blocks(c, S) == Multiple(unit, Members(S, at, f)) + (if at + f in S then csd - Multiple(unit, f) else 0)
  {
    SumOfUnits(c, S, at, f, unit, csd, |c.batches|);
  }

  /** No multiple of the unit that full batches alone can reach is the total. */
  predicate Unreached(unit: nat, f: nat, csd: int) {
    forall j :: 1 <= j <= f ==> Multiple(unit, j) != csd
  }

  lemma OutOfReach(unit: nat, f: nat, csd: int)
    requires unit > 0 && !(1 <= csd <= Multiple(unit, f))
    ensures Unreached(unit, f, csd)
  {
    forall j | 1 <= j <= f ensures Multiple(unit, j) != csd {
      MultipleGrows(unit, 0, j);
      MultipleGrows(unit, j, f);
    }
  }

  lemma UnitsProperPart(c: Config, S: set<nat>, at: nat, f: nat, unit: nat, csd: int)
    requires Units(c, at, f, unit, csd) && unit > 0 && Unreached(unit, f, csd) && S < Span(at, f + 1) && S != {}
    ensures Blocks(c, S) != csd
  {
    UnitsBlocks(c, S, at, f, unit, csd);
    MembersBound(S, at, f);
    if at + f in S {
      var x :| x in Span(at, f + 1) && x !in S;
      assert at <= x < at + f;
      MultipleGrows(unit, Members(S, at, f), f);
    } else {
      var b :| b in S;
      assert b in Span(at, f + 1) && at <= b < at + f;
    }
  }

  lemma UnitsSplit(c: Config, at: nat, f: nat, unit: nat, csd: int, j: nat)
    requires Units(c, at, f, unit, csd) && 1 <= j <= f && Multiple(unit, j) == csd
    ensures Span(at, j) < Span(at, f + 1) && Span(at, j) != {} && Blocks(c, Span(at, j)) == csd
  {
    assert at in Span(at, j) && at + f in Span(at, f + 1) && at + f !in Span(at, j);
    UnitsBlocks(c, Span(at, j), at, f, unit, csd);
    FirstMembers(at, j, f);
  }

  lemma UnitsWhole(c: Config, at: nat, f: nat, unit: nat, csd: int)
    requires Units(c, at, f, unit, csd)
    ensures Blocks(c, Span(at, f + 1)) == csd
  {
    UnitsBlocks(c, Span(at, f + 1), at, f, unit, csd);
    FirstMembers(at, f + 1, f);
    assert at + f in Span(at, f + 1);
  }

  /** With uniform counts the release condition is that full batches alone do not reach the total. */
  lemma UniformCondition(c: Config, k: Key, at: nat, out: seq<Contents>, passes: Row -> bool, unit: nat)
    requires Feeds(c, k, at, out, passes) && Uniform(out, unit, c.total(k)) && unit > 0
    ensures BatchesOf(c, k) != {}
    ensures WholeOnly(c, k) <==> Unreached(unit, |out| - 1, c.total(k))
  {
    var f, csd := |out| - 1, c.total(k);
    UnitsOfScan(c, k, at, out, passes, unit, csd);
    BatchesAreSpan(c, k, at, out, passes);
    assert at in Span(at, |out|);
    UnitsWhole(c, at, f, unit, csd);
    if Unreached(unit, f, csd) {
      forall S: set<nat> | S < BatchesOf(c, k) && S != {} ensures Blocks(c, S) != csd {
        UnitsProperPart(c, S, at, f, unit, csd);
      }
    } else {
      var j :| 1 <= j <= f && Multiple(unit, j) == csd;
      UnitsSplit(c, at, f, unit, csd, j);
    }
  }

  lemma UniformWhole(c: Config, k: Key, at: nat, out: seq<Contents>, passes: Row -> bool, unit: nat)
    requires Feeds(c, k, at, out, passes) && Uniform(out, unit, c.total(k)) && unit > 0
    requires !(1 <= c.total(k) <= Multiple(unit, |out| - 1))
    ensures BatchesOf(c, k) != {} && WholeOnly(c, k)
  {
    UniformCondition(c, k, at, out, passes, unit);
    OutOfReach(unit, |out| - 1, c.total(k));
  }

  // ---------------------------------------------------------------- data-block scans

  /** A data-block scan whose batches, routed with the WHERE list ws, feed k. csd_block_count is
      whatever the snippet says. */
  predicate BlockSnippet<C(!new)>(c: Config, k: Key, at: nat, t: Input, blocks: seq<seq<KV>>, ws: seq<Clause<C>>,
                                  holds: (C, Row) -> bool)
  {
    && c.workers > 0 && t.numOfBlocks > 0 && t.bufferSize == c.bufferSize && Alternating(ws)
    && Routed(c, k, at, ScanBlocks(t, c.total(k), blocks).out, ws, holds)
  }

  lemma BlockFeeds<C(!new)>(c: Config, k: Key, at: nat, t: Input, blocks: seq<seq<KV>>, ws: seq<Clause<C>>,
                            holds: (C, Row) -> bool)
    requires BlockSnippet(c, k, at, t, blocks, ws, holds)
    ensures Feeds(c, k, at, ScanBlocks(t, c.total(k), blocks).out, RowPasses(ws, holds))
  {
    BlockScanConserves(t, c.total(k), blocks, |blocks|);
    RoutedFeeds(c, k, at, ScanBlocks(t, c.total(k), blocks).out, ws, holds);
  }

  lemma WholeBlockScan(c: Config, k: Key, at: nat, t: Input, blocks: seq<seq<KV>>, passes: Row -> bool)
    requires t.numOfBlocks > 0 && EndsWhole(t, c.total(k), blocks)
    requires Feeds(c, k, at, ScanBlocks(t, c.total(k), blocks).out, passes)
    ensures BatchesOf(c, k) != {} && WholeOnly(c, k) && ScanBlocks(t, c.total(k), blocks).cur == EMPTY
  {
    var out, csd, num := ScanBlocks(t, c.total(k), blocks).out, c.total(k), t.numOfBlocks;
    CleanBlockScan(t, csd, blocks);
    UniformWhole(c, k, at, out, passes, num);
  }

  lemma BrokenBlockScan(c: Config, k: Key, at: nat, t: Input, blocks: seq<seq<KV>>, passes: Row -> bool)
    requires t.numOfBlocks > 0 && !EndsWhole(t, c.total(k), blocks)
    requires Feeds(c, k, at, ScanBlocks(t, c.total(k), blocks).out, passes)
    requires ScanBlocks(t, c.total(k), blocks).cur == EMPTY
    ensures BatchesOf(c, k) == {} || !WholeOnly(c, k)
  {
    var csd, p := c.total(k), ScanBlocks(t, c.total(k), blocks);
    BatchesAreSpan(c, k, at, p.out, passes);
    if blocks != [] {
      if !EndsInLastBlock(t, blocks) || 1 <= csd < |blocks| {
        var m := EndsEarlyWhen(t, csd, blocks);
        var j := EarlyEndSplits(csd, Reads(t, blocks), t.numOfBlocks, m);
        EarlyTotalSplits(c, k, at, p.out, passes, j);
      } else {
        BlocksRead(t, csd, blocks);
        BlocksOfScan(c, k, at, p.out, passes);
      }
    }
  }

  lemma EndsAtWhole(c: Config, k: Key, at: nat, t: Input, blocks: seq<seq<KV>>, passes: Row -> bool, e: nat)
    requires t.numOfBlocks > 0 && EndsAt(t, c.total(k), blocks, e)
    requires Feeds(c, k, at, ScanBlocks(t, c.total(k), blocks).out, passes)
    ensures BatchesOf(c, k) != {} && WholeOnly(c, k)
  {
    EndsAtHolds(t, c.total(k), blocks, e, |blocks|);
    WholeBlockScan(c, k, at, t, blocks[..e], passes);
  }

  lemma WholeEndsAt(c: Config, k: Key, at: nat, t: Input, blocks: seq<seq<KV>>, passes: Row -> bool) returns (e: nat)
    requires t.numOfBlocks > 0 && BatchesOf(c, k) != {} && WholeOnly(c, k)
    requires Feeds(c, k, at, ScanBlocks(t, c.total(k), blocks).out, passes)
    ensures EndsAt(t, c.total(k), blocks, e)
  {
    BlocksOfScan(c, k, at, ScanBlocks(t, c.total(k), blocks).out, passes);
    e := LastEmissionSettles(t, c.total(k), blocks);
    if !EndsWhole(t, c.total(k), blocks[..e]) {
      BrokenBlockScan(c, k, at, t, blocks[..e], passes);
    }
  }

  /** Whatever csd_block_count is: under every schedule a data-block scan is released exactly once if
      and only if there is a block in which the count is accounted for and not before (no earlier
      block reaches a key beyond the table, and the count is the number of blocks so far, or this
      block does reach such a key and the count does not run out before it), and the blocks behind
      it neither reach such a key nor fill a batch. */
  lemma BlockReleaseExactly<C(!new)>(c: Config, k: Key, at: nat, t: Input, blocks: seq<seq<KV>>, ws: seq<Clause<C>>,
                                     holds: (C, Row) -> bool)
    requires BlockSnippet(c, k, at, t, blocks, ws, holds)
    ensures AlwaysReleasedOnce(c, k) <==> exists e :: EndsAt(t, c.total(k), blocks, e)
  {
    BlockFeeds(c, k, at, t, blocks, ws, holds);
    ExactCondition(c, k);
    if BatchesOf(c, k) != {} && WholeOnly(c, k) {
      var e := WholeEndsAt(c, k, at, t, blocks, RowPasses(ws, holds));
    } else if e :| EndsAt(t, c.total(k), blocks, e) {
      EndsAtWhole(c, k, at, t, blocks, RowPasses(ws, holds), e);
    }
  }

  /** The blocks behind that one are never emitted: the snippet is released with the rows of the first
      e blocks only. */
  lemma RowsHeldBack<C(!new)>(c: Config, k: Key, at: nat, t: Input, blocks: seq<seq<KV>>, ws: seq<Clause<C>>,
                              holds: (C, Row) -> bool, e: nat)
    requires BlockSnippet(c, k, at, t, blocks, ws, holds) && EndsAt(t, c.total(k), blocks, e)
    ensures AlwaysReleasedOnce(c, k)
    ensures var p := ScanBlocks(t, c.total(k), blocks);
      && p.cur.blockCount == |blocks| - e
      && OutRows(p.out) == RowsOf(AllBlockRows(blocks, t.below, t.mine, e), t.rowOf)
  {
    BlockReleaseExactly(c, k, at, t, blocks, ws, holds);
    EndsAtHolds(t, c.total(k), blocks, e, |blocks|);
    EndsAtRows(t, c.total(k), blocks, e);
  }

  /** Released exactly once and nothing held back, not even a block without rows: the count is
      accounted for in the last block. */
  lemma BlockScanCondition<C(!new)>(c: Config, k: Key, at: nat, t: Input, blocks: seq<seq<KV>>, ws: seq<Clause<C>>,
                                    holds: (C, Row) -> bool)
    requires BlockSnippet(c, k, at, t, blocks, ws, holds)
    ensures AlwaysReleasedOnce(c, k) && ScanBlocks(t, c.total(k), blocks).cur == EMPTY
      <==> EndsWhole(t, c.total(k), blocks)
  {
    assert blocks[..|blocks|] == blocks;
    BlockReleaseExactly(c, k, at, t, blocks, ws, holds);
    if EndsWhole(t, c.total(k), blocks) {
      assert EndsAt(t, c.total(k), blocks, |blocks|);
      CleanBlockScan(t, c.total(k), blocks);
    } else if e :| EndsAt(t, c.total(k), blocks, e) {
      EndsAtHolds(t, c.total(k), blocks, e, |blocks|);
    }
  }

  lemma ScanIsFresh(t: Input, csd: int, blocks: seq<seq<KV>>)
    ensures var out := ScanBlocks(t, csd, blocks).out;
      forall i :: 0 <= i < |out| ==> Fresh(out[i])
  {
    BlockScanConserves(t, csd, blocks, |blocks|);
  }

  /** The rows of the first e blocks are all there are if and only if the others have none. */
  lemma RowsBefore(t: Input, n: int, blocks: seq<seq<KV>>, e: nat)
    requires Int32(n) && t.below == Below(n) && t.mine == Mine(n) && WellFormedBlocks(blocks) && e <= |blocks|
    ensures var rows, some := RowsOf(Select(Flatten(blocks), n), t.rowOf),
                              RowsOf(AllBlockRows(blocks, t.below, t.mine, e), t.rowOf);
      (|some| == |rows| <==> NoRows(t, blocks, e)) && (NoRows(t, blocks, e) ==> some == rows)
  {
    StrategiesAgree(blocks, n);
    RowsFrom(t, blocks, e, |blocks|);
  }

  /** End to end, data blocks: every complete run delivers the projected rows of table n that pass the
      WHERE list if and only if there is such a block and no row of the table lies behind it. */
  lemma BlockDelivery<C(!new)>(c: Config, k: Key, at: nat, t: Input, n: int, blocks: seq<seq<KV>>,
                               ws: seq<Clause<C>>, holds: (C, Row) -> bool)
    requires BlockSnippet(c, k, at, t, blocks, ws, holds)
    requires Int32(n) && t.below == Below(n) && t.mine == Mine(n) && WellFormedBlocks(blocks)
    ensures AlwaysDelivered(c, k, RowsOf(Select(Flatten(blocks), n), t.rowOf), RowPasses(ws, holds))
      <==> exists e :: EndsAt(t, c.total(k), blocks, e) && NoRows(t, blocks, e)
  {
    var rows, passes := RowsOf(Select(Flatten(blocks), n), t.rowOf), RowPasses(ws, holds);
    if AlwaysDelivered(c, k, rows, passes) {
      var e := DeliveredEndsAt(c, k, at, t, n, blocks, ws, holds);
    } else if e :| EndsAt(t, c.total(k), blocks, e) && NoRows(t, blocks, e) {
      EndsAtDelivers(c, k, at, t, n, blocks, ws, holds, e);
    }
  }

  lemma DeliveredEndsAt<C(!new)>(c: Config, k: Key, at: nat, t: Input, n: int, blocks: seq<seq<KV>>,
                                 ws: seq<Clause<C>>, holds: (C, Row) -> bool) returns (e: nat)
    requires BlockSnippet(c, k, at, t, blocks, ws, holds)
    requires Int32(n) && t.below == Below(n) && t.mine == Mine(n) && WellFormedBlocks(blocks)
    requires AlwaysDelivered(c, k, RowsOf(Select(Flatten(blocks), n), t.rowOf), RowPasses(ws, holds))
    ensures EndsAt(t, c.total(k), blocks, e) && NoRows(t, blocks, e)
  {
    var out := ScanBlocks(t, c.total(k), blocks).out;
    BlockFeeds(c, k, at, t, blocks, ws, holds);
    ScanIsFresh(t, c.total(k), blocks);
    DeliveryNeeds(c, k, at, out, RowPasses(ws, holds), RowsOf(Select(Flatten(blocks), n), t.rowOf));
    e := WholeEndsAt(c, k, at, t, blocks, RowPasses(ws, holds));
    EndsAtRows(t, c.total(k), blocks, e);
    RowsBefore(t, n, blocks, e);
  }

  lemma EndsAtDelivers<C(!new)>(c: Config, k: Key, at: nat, t: Input, n: int, blocks: seq<seq<KV>>,
                                ws: seq<Clause<C>>, holds: (C, Row) -> bool, e: nat)
    requires BlockSnippet(c, k, at, t, blocks, ws, holds)
    requires Int32(n) && t.below == Below(n) && t.mine == Mine(n) && WellFormedBlocks(blocks)
    requires EndsAt(t, c.total(k), blocks, e) && NoRows(t, blocks, e)
    ensures AlwaysDelivered(c, k, RowsOf(Select(Flatten(blocks), n), t.rowOf), RowPasses(ws, holds))
  {
    var out := ScanBlocks(t, c.total(k), blocks).out;
    BlockFeeds(c, k, at, t, blocks, ws, holds);
    ScanIsFresh(t, c.total(k), blocks);
    EndsAtWhole(c, k, at, t, blocks, RowPasses(ws, holds), e);
    EndsAtRows(t, c.total(k), blocks, e);
    RowsBefore(t, n, blocks, e);
    DeliverySuffices(c, k, at, out, RowPasses(ws, holds), RowsOf(Select(Flatten(blocks), n), t.rowOf));
  }

  /** The count is accounted for in block e, no row lies behind it, and the blocks of each batch fit
      raw_data. */
  ghost predicate Deliverable(t: Input, csd: int, blocks: seq<seq<KV>>, e: nat) {
    EndsAt(t, csd, blocks, e) && NoRows(t, blocks, e) && WindowsFit(t, blocks[..e])
  }

  lemma NoRowsWithin(t: Input, csd: int, blocks: seq<seq<KV>>, e: nat)
    requires t.numOfBlocks > 0 && EndsAt(t, csd, blocks, e) && NoRows(t, blocks, e)
    ensures ScanWithin(t, csd, blocks) <==> WindowsFit(t, blocks[..e])
  {
    EndsAtExactly(t, csd, blocks, e);
    StretchNothing(t, blocks, e, |blocks|);
  }

  /** With the buffers: every complete run delivers, and neither the scan nor a merge buffer ever
      runs past raw_data, if and only if the scan is deliverable and every projected row fits an
      empty buffer. */
  lemma BlockDeliveryExactly<C(!new)>(c: Config, k: Key, at: nat, t: Input, n: int, blocks: seq<seq<KV>>,
                                      ws: seq<Clause<C>>, holds: (C, Row) -> bool)
    requires BlockSnippet(c, k, at, t, blocks, ws, holds)
    requires Int32(n) && t.below == Below(n) && t.mine == Mine(n) && WellFormedBlocks(blocks)
    ensures && AlwaysDelivered(c, k, RowsOf(Select(Flatten(blocks), n), t.rowOf), RowPasses(ws, holds))
            && ScanWithin(t, c.total(k), blocks) && AlwaysWithin(c)
      <==> (exists e :: Deliverable(t, c.total(k), blocks, e)) && MergeRowsFit(c)
  {
    BlockDelivery(c, k, at, t, n, blocks, ws, holds);
    MergeBuffersExactly(c);
    forall e | EndsAt(t, c.total(k), blocks, e) && NoRows(t, blocks, e)
      ensures ScanWithin(t, c.total(k), blocks) <==> Deliverable(t, c.total(k), blocks, e)
    {
      NoRowsWithin(t, c.total(k), blocks, e);
    }
  }

  /** The usual case: the count is accounted for in the last block. Then a complete run delivers, and
      no buffer on the way is overrun: not the scan's, not the filter's, not a merge buffer. */
  lemma BlockScanDelivers<C(!new)>(c: Config, k: Key, at: nat, t: Input, n: int, blocks: seq<seq<KV>>,
                                   ws: seq<Clause<C>>, holds: (C, Row) -> bool, steps: seq<Step>)
    requires BlockSnippet(c, k, at, t, blocks, ws, holds) && EndsWhole(t, c.total(k), blocks)
    requires WindowsFit(t, blocks) && MergeRowsFit(c) && Complete(c, steps)
    requires Int32(n) && t.below == Below(n) && t.mine == Mine(n) && WellFormedBlocks(blocks)
    ensures Delivered(c, Exec(c, Init(c), steps).state, k, RowsOf(Select(Flatten(blocks), n), t.rowOf),
                      RowPasses(ws, holds))
    ensures ScanWithin(t, c.total(k), blocks) && AlwaysWithin(c)
    ensures forall b :: 0 <= b < |c.batches| && KeyOf(c, b) == k ==> Length(c.batches[b].data) <= c.bufferSize
  {
    assert blocks[..|blocks|] == blocks;
    assert Deliverable(t, c.total(k), blocks, |blocks|);
    BlockDeliveryExactly(c, k, at, t, n, blocks, ws, holds);
    forall b | 0 <= b < |c.batches| && KeyOf(c, b) == k ensures Length(c.batches[b].data) <= c.bufferSize {
      BatchWithin(c, k, at, t, blocks, ws, holds, b);
    }
  }

  lemma BatchWithin<C(!new)>(c: Config, k: Key, at: nat, t: Input, blocks: seq<seq<KV>>, ws: seq<Clause<C>>,
                             holds: (C, Row) -> bool, b: nat)
    requires BlockSnippet(c, k, at, t, blocks, ws, holds) && ScanWithin(t, c.total(k), blocks)
    requires b < |c.batches| && KeyOf(c, b) == k
    ensures Length(c.batches[b].data) <= c.bufferSize
  {
    var out := ScanBlocks(t, c.total(k), blocks).out;
    BlockFeeds(c, k, at, t, blocks, ws, holds);
    EmittedWithin(t, c.total(k), blocks);
    var i := b - at;
    assert c.batches[at + i].data == FilterBatch(out[i], RowPasses(ws, holds));
    FilteredLength(out[i], RowPasses(ws, holds));
    assert at + i == b && |Flatten(out[i].rows)| <= t.bufferSize;
  }

  // ---------------------------------------------------------------- SST scans

  /** What the bounded iterators over the first m files yield. */
  function FileRows(files: seq<seq<KV>>, n: int, m: nat): seq<KV>
    requires m <= |files|
  {
    if m == 0 then [] else Cat(FileRows(files, n, m - 1), RangeRows(files[m - 1], n))
  }

  lemma {:induction false} FileRowsIsSelect(files: seq<seq<KV>>, n: int, m: nat)
    requires Int32(n) && n != -1 && m <= |files| && forall i :: 0 <= i < |files| ==> LongKeys(files[i])
    ensures FileRows(files, n, m) == Select(Flatten(files[..m]), n)
    decreases m
  {
    if m > 0 {
      FileRowsIsSelect(files, n, m - 1);
      CatIsConcat(FileRows(files, n, m - 1), RangeRows(files[m - 1], n));
      RangeIsSelect(files[m - 1], n);
      assert files[..m] == files[..m - 1] + [files[m - 1]];
      FlattenSnoc(files[..m - 1], files[m - 1]);
      FilterConcat(Flatten(files[..m - 1]), files[m - 1], Mine(n));
    }
  }

  /** An SST scan that yields `rows`, whose batches, routed with the WHERE list ws, feed k. */
  predicate SstSnippet<C(!new)>(c: Config, k: Key, at: nat, rows: seq<Row>, ws: seq<Clause<C>>,
                                holds: (C, Row) -> bool)
  {
    && c.workers > 0 && Alternating(ws)
    && Routed(c, k, at, ScanRows(c.total(k), rows, c.bufferSize).out, ws, holds)
  }

  lemma SstFeeds<C(!new)>(c: Config, k: Key, at: nat, rows: seq<Row>, ws: seq<Clause<C>>, holds: (C, Row) -> bool)
    requires SstSnippet(c, k, at, rows, ws, holds)
    ensures Feeds(c, k, at, ScanRows(c.total(k), rows, c.bufferSize).out, RowPasses(ws, holds))
  {
    SstScanConserves(c.total(k), rows, c.bufferSize);
    RoutedFeeds(c, k, at, ScanRows(c.total(k), rows, c.bufferSize).out, ws, holds);
  }

  /** A multiple of 100 that the flushes alone can reach. */
  predicate FlushesReach(csd: int, flushes: nat) {
    csd % 100 == 0 && 100 <= csd <= 100 * flushes
  }

  lemma {:induction false} Hundreds(j: nat)
    ensures Multiple(100, j) == 100 * j
    decreases j
  {
    if j > 0 {
      Hundreds(j - 1);
    }
  }

  lemma ReachIsMultiple(csd: int, f: nat)
    ensures FlushesReach(csd, f) <==> !Unreached(100, f, csd)
  {
    if FlushesReach(csd, f) {
      Hundreds(csd / 100);
    } else {
      forall j | 1 <= j <= f ensures Multiple(100, j) != csd {
        Hundreds(j);
      }
    }
  }

  /** An SST scan is released exactly once under every schedule if and only if its block count is
      not a multiple of 100 that the flushes alone can reach. */
  lemma SstScanCondition<C(!new)>(c: Config, k: Key, at: nat, rows: seq<Row>, ws: seq<Clause<C>>,
                                  holds: (C, Row) -> bool)
    requires SstSnippet(c, k, at, rows, ws, holds)
    ensures AlwaysReleasedOnce(c, k) <==> !FlushesReach(c.total(k), Flushes(rows, c.bufferSize, |rows|))
    ensures AlwaysReleasedOnce(c, k) <==> BatchesOf(c, k) != {} && WholeOnly(c, k)
  {
    var out := ScanRows(c.total(k), rows, c.bufferSize).out;
    SstFeeds(c, k, at, rows, ws, holds);
    SstScanCounts(c.total(k), rows, c.bufferSize);
    UniformCondition(c, k, at, out, RowPasses(ws, holds), 100);
    ReachIsMultiple(c.total(k), |out| - 1);
    ExactCondition(c, k);
  }

  /** An SST scan emits its rows, in order. */
  lemma SstScanEmits(csd: int, rows: seq<Row>, bufferSize: nat)
    ensures var out := ScanRows(csd, rows, bufferSize).out;
      OutRows(out) == rows && forall i :: 0 <= i < |out| ==> Fresh(out[i])
  {
    var p := ScanRows(csd, rows, bufferSize);
    SstScanConserves(csd, rows, bufferSize);
    assert OutRows(p.out) + [] == OutRows(p.out);
  }

  /** Every complete run delivers `wanted` only if the scan yields as many rows, and does so if it
      yields these, and is released exactly once. */
  lemma SstDelivery<C(!new)>(c: Config, k: Key, at: nat, rows: seq<Row>, wanted: seq<Row>, ws: seq<Clause<C>>,
                             holds: (C, Row) -> bool)
    requires SstSnippet(c, k, at, rows, ws, holds) && (rows == wanted || rows == [])
    ensures AlwaysDelivered(c, k, wanted, RowPasses(ws, holds))
      <==> rows == wanted && !FlushesReach(c.total(k), Flushes(rows, c.bufferSize, |rows|))
  {
    var out, passes := ScanRows(c.total(k), rows, c.bufferSize).out, RowPasses(ws, holds);
    SstFeeds(c, k, at, rows, ws, holds);
    SstScanCondition(c, k, at, rows, ws, holds);
    SstScanEmits(c.total(k), rows, c.bufferSize);
    if AlwaysDelivered(c, k, wanted, passes) {
      DeliveryNeeds(c, k, at, out, passes, wanted);
    } else if rows == wanted && AlwaysReleasedOnce(c, k) {
      DeliverySuffices(c, k, at, out, passes, wanted);
    }
  }

  lemma {:induction false} NoFileRows(files: seq<seq<KV>>, m: nat)
    requires m <= |files| && forall i :: 0 <= i < |files| ==> LongKeys(files[i])
    ensures FileRows(files, -1, m) == []
    decreases m
  {
    if m > 0 {
      NoFileRows(files, m - 1);
      RangeIsSelect(files[m - 1], -1);
    }
  }

  /** End to end, SST files, for every table number and block count: every complete run delivers the
      projected rows of table n that pass the WHERE list, and neither the scan nor a merge buffer ever
      runs past raw_data, if and only if the number is not -1 or the table has no row, the flushes
      cannot reach the count, and no scanned and no projected row is longer than raw_data. */
  lemma SstDeliveryExactly<C(!new)>(c: Config, k: Key, at: nat, n: int, files: seq<seq<KV>>, rowOf: KV -> Row,
                                    ws: seq<Clause<C>>, holds: (C, Row) -> bool)
    requires Int32(n) && forall i :: 0 <= i < |files| ==> LongKeys(files[i])
    requires SstSnippet(c, k, at, RowsOf(FileRows(files, n, |files|), rowOf), ws, holds)
    ensures var rows := RowsOf(FileRows(files, n, |files|), rowOf);
      && AlwaysDelivered(c, k, RowsOf(Select(Flatten(files), n), rowOf), RowPasses(ws, holds))
      && SstWithin(c.total(k), rows, c.bufferSize) && AlwaysWithin(c)
      <==>
      && (n != -1 || Select(Flatten(files), n) == [])
      && !FlushesReach(c.total(k), Flushes(rows, c.bufferSize, |rows|))
      && RowsWithin(rows, c.bufferSize) && MergeRowsFit(c)
  {
    var rows, wanted := RowsOf(FileRows(files, n, |files|), rowOf), RowsOf(Select(Flatten(files), n), rowOf);
    if n == -1 {
      NoFileRows(files, |files|);
    } else {
      FileRowsIsSelect(files, n, |files|);
    }
    assert files[..|files|] == files;
    assert |wanted| == |Select(Flatten(files), n)|;
    SstDelivery(c, k, at, rows, wanted, ws, holds);
    SstWithinExactly(c.total(k), rows, c.bufferSize);
    MergeBuffersExactly(c);
  }

  /** The usual case. */
  lemma SstScanDelivers<C(!new)>(c: Config, k: Key, at: nat, n: int, files: seq<seq<KV>>, rowOf: KV -> Row,
                                 ws: seq<Clause<C>>, holds: (C, Row) -> bool, steps: seq<Step>)
    requires Int32(n) && n != -1 && forall i :: 0 <= i < |files| ==> LongKeys(files[i])
    requires var rows := RowsOf(FileRows(files, n, |files|), rowOf);
      && SstSnippet(c, k, at, rows, ws, holds) && RowsWithin(rows, c.bufferSize)
      && !FlushesReach(c.total(k), Flushes(rows, c.bufferSize, |rows|))
    requires MergeRowsFit(c) && Complete(c, steps)
    ensures Delivered(c, Exec(c, Init(c), steps).state, k, RowsOf(Select(Flatten(files), n), rowOf),
                      RowPasses(ws, holds))
    ensures SstWithin(c.total(k), RowsOf(FileRows(files, n, |files|), rowOf), c.bufferSize) && AlwaysWithin(c)
  {
    SstDeliveryExactly(c, k, at, n, files, rowOf, ws, holds);
  }
}
