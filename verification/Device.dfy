/** One data-block snippet on the device, in bytes: the scanner, the filter stage and the projection
    layer one after the other, from blocks of keys and values to the packets of the return layer. */
module Device {
  import opened RowData
  import opened Sequences
  import opened KeyRange
  import opened Scan
  import opened FilterStage
  import opened Where
  import opened Projection
  import opened ProjectionEnds
  import opened ProjectionBounds
  import opened ProjectionLayer
  import opened Pipeline

  /** The batches as the projection layer gets them. */
  function RoutedBatches<C(!new)>(k: Key, out: seq<Contents>, ws: seq<Clause<C>>, holds: (C, Row) -> bool): seq<Batch>
    requires Alternating(ws)
  {
    seq(|out|, i requires 0 <= i < |out| => Batch(k, Route(out[i], ws, holds)))
  }

  /** The protocol of a device that serves this snippet alone. */
  function Alone<C(!new)>(setting: Setting, k: Key, out: seq<Contents>, ws: seq<Clause<C>>, holds: (C, Row) -> bool)
    : Config
    requires Alternating(ws)
  {
    Config(setting.workers, setting.bufferSize, setting.total, RoutedBatches(k, out, ws, holds), setting.project)
  }

  /** The filter stage: every batch of the scan on its way. */
  method RouteAll<C(!new)>(k: Key, batches: seq<Data>, ghost out: seq<Contents>, ws: seq<Clause<C>>,
                           holds: (C, Row) -> bool) returns (results: seq<CsdResult>)
    requires Alternating(ws) && batches == Batches(out)
    ensures |results| == |out|
    ensures forall i :: 0 <= i < |out| ==> results[i] == CsdResult(k, SealedLayout(Route(out[i], ws, holds)))
  {
    results := [];
    for i := 0 to |batches|
      invariant |results| == i
      invariant forall j :: 0 <= j < i ==> results[j] == CsdResult(k, SealedLayout(Route(out[j], ws, holds)))
    {
      var routed := RouteResult(batches[i], out[i], ws, holds);
      results := results + [CsdResult(k, routed)];
    }
  }

  /** Scan the blocks, route the batches, run the projection layer under any schedule: the packets are
      those of the protocol. */
  method RunBlocks<C(!new)>(t: Input, setting: Setting, k: Key, blocks: seq<seq<KV>>, ws: seq<Clause<C>>,
                            holds: (C, Row) -> bool, steps: seq<Step>) returns (packets: seq<Packet>)
    requires Alternating(ws)
    requires var c := Alone(setting, k, ScanBlocks(t, setting.total(k), blocks).out, ws, holds);
      Exec(c, Init(c), steps).At?
    ensures var c := Alone(setting, k, ScanBlocks(t, setting.total(k), blocks).out, ws, holds);
      packets == Packets(Exec(c, Init(c), steps).state.returned)
  {
    var scanner := new Scanner(t, setting.total(k));
    scanner.DataBlockFullScan(blocks, setting.total(k));
    ghost var out := scanner.p.out;
    var results := RouteAll(k, scanner.emitted, out, ws, holds);
    packets := RunSchedule(setting, results, steps, Alone(setting, k, out, ws, holds));
  }

  lemma AloneSnippet<C(!new)>(t: Input, setting: Setting, k: Key, blocks: seq<seq<KV>>, ws: seq<Clause<C>>,
                              holds: (C, Row) -> bool)
    requires setting.workers > 0 && t.numOfBlocks > 0 && t.bufferSize == setting.bufferSize && Alternating(ws)
    ensures var c := Alone(setting, k, ScanBlocks(t, setting.total(k), blocks).out, ws, holds);
      BlockSnippet(c, k, 0, t, blocks, ws, holds)
  {
  }

  /** End to end in bytes: for a deliverable scan whose projected rows fit, the packets of a complete
      run carry one release flag, and the rows read off their bytes are the projected rows of table n
      that pass the WHERE list. */
  method DeliverBlocks<C(!new)>(t: Input, setting: Setting, k: Key, n: int, blocks: seq<seq<KV>>,
                                ws: seq<Clause<C>>, holds: (C, Row) -> bool, steps: seq<Step>, ghost e: nat)
    returns (packets: seq<Packet>)
    requires setting.workers > 0 && t.numOfBlocks > 0 && t.bufferSize == setting.bufferSize && Alternating(ws)
    requires Int32(n) && t.below == Below(n) && t.mine == Mine(n) && WellFormedBlocks(blocks)
    requires Deliverable(t, setting.total(k), blocks, e)
    requires var c := Alone(setting, k, ScanBlocks(t, setting.total(k), blocks).out, ws, holds);
      Complete(c, steps) && MergeRowsFit(c)
    ensures FlagCount(packets, k) == 1
    ensures multiset(PacketRows(packets, k)) ==
      multiset(Project(Filter(RowsOf(Select(Flatten(blocks), n), t.rowOf), RowPasses(ws, holds)),
                       row => setting.project(k, row)))
    ensures forall i :: 0 <= i < |packets| ==> |packets[i].data.raw| <= setting.bufferSize
  {
    packets := RunBlocks(t, setting, k, blocks, ws, holds, steps);
    ghost var c := Alone(setting, k, ScanBlocks(t, setting.total(k), blocks).out, ws, holds);
    AloneSnippet(t, setting, k, blocks, ws, holds);
    BlockDeliveryExactly(c, k, 0, t, n, blocks, ws, holds);
    PacketsDelivered(c, k, RowsOf(Select(Flatten(blocks), n), t.rowOf), RowPasses(ws, holds), steps);
  }

  lemma PacketsDelivered(c: Config, k: Key, rows: seq<Row>, passes: Row -> bool, steps: seq<Step>)
    requires AlwaysDelivered(c, k, rows, passes) && AlwaysWithin(c) && Complete(c, steps)
    ensures var packets := Packets(Exec(c, Init(c), steps).state.returned);
      && FlagCount(packets, k) == 1
      && multiset(PacketRows(packets, k)) == multiset(Project(Filter(rows, passes), row => c.project(k, row)))
      && forall i :: 0 <= i < |packets| ==> |packets[i].data.raw| <= c.bufferSize
  {
    var s := Exec(c, Init(c), steps).state;
    assert Delivered(c, s, k, rows, passes) && Within(c, s);
    PacketsAre(s.returned, k);
    assert Project(Filter(rows, passes), ProjectFor(c, k)) == Project(Filter(rows, passes), row => c.project(k, row));
  }
}
