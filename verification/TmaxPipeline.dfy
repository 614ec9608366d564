/** A whole Tmax snippet (worker.cc: tmax_working): filter every block into its own chunk list and
    frame the chunks into results. */
module TmaxPipeline {
  import opened Framing
  import opened RowData
  import opened Sequences
  import opened TmaxFilter

  predicate Snippet(info: FilterInfo, blocks: seq<seq<Slot>>) {
    Planned(info) && forall b :: 0 <= b < |blocks| ==> Filterable(info, blocks[b])
  }

  function BlockChunks(info: FilterInfo, rows: seq<Slot>): seq<seq<Byte>>
    requires ValidOperands(info) && Block(rows)
  {
    Chunks(info, rows, |rows|, [])
  }

  function BlockItems(info: FilterInfo, rows: seq<Slot>): seq<Item>
    requires ValidOperands(info) && Block(rows)
  {
    ItemsOf(Lists(BlockChunks(info, rows), []))
  }

  /** The items of all blocks, block by block. */
  function AllItems(info: FilterInfo, blocks: seq<seq<Slot>>): (r: seq<seq<Item>>)
    requires Snippet(info, blocks)
    ensures |r| == |blocks| && forall b :: 0 <= b < |r| ==> r[b] == BlockItems(info, blocks[b])
  {
    seq(|blocks|, (b: nat) requires b < |blocks| => BlockItems(info, blocks[b]))
  }

  /** A full chunk makes a frame of 64 KiB, and its length still fits the two bytes of the frame. */
  lemma FullChunk(chunk: seq<Byte>, flag: Byte)
    requires |chunk| == RES_CHUNK_SIZE
    ensures |Frame(Item(flag, chunk))| == 0x10000 && Small([Item(flag, chunk)])
  {
  }

  /** One block: filter it into a chunk list of its own, and send the chunks. */
  method SendFiltered(info: FilterInfo, rows: seq<Slot>, sender: Sender)
    requires Planned(info) && Filterable(info, rows) && sender.Valid() && AllFit(BlockItems(info, rows), sender.size)
    modifies sender, sender.data
    ensures sender.Valid() && sender.packed == Pack(old(sender.packed), BlockItems(info, rows), sender.size, 0)
  {
    var list := new ChunkList();
    FilterBlock(info, rows, list);
    sender.SendBlock(ItemsOf(Lists(list.chunks, [])));
  }

  /** All blocks; `after(b)` is what b blocks make of the results. */
  method SendBlocks(info: FilterInfo, blocks: seq<seq<Slot>>, sender: Sender, ghost after: nat -> Packed)
    requires Snippet(info, blocks) && sender.Valid() && sender.packed == after(0)
    requires forall b :: 0 <= b < |blocks| ==> AllFit(BlockItems(info, blocks[b]), sender.size)
    requires forall b :: 0 <= b < |blocks| ==>
      after(b + 1) == Pack(after(b), BlockItems(info, blocks[b]), sender.size, 0)
    modifies sender, sender.data
    ensures sender.Valid() && sender.packed == after(|blocks|)
  {
    for b := 0 to |blocks|
      invariant sender.Valid() && sender.packed == after(b)
    {
      SendFiltered(info, blocks[b], sender);
    }
  }

  function After(info: FilterInfo, blocks: seq<seq<Slot>>, size: nat): nat -> Packed
    requires Snippet(info, blocks)
  {
    (b: nat) => if b <= |blocks| then PackAll(AllItems(info, blocks), size, b) else Packed([], [])
  }

  lemma AfterNext(info: FilterInfo, blocks: seq<seq<Slot>>, size: nat, b: nat)
    requires Snippet(info, blocks) && b < |blocks|
    ensures var after := After(info, blocks, size);
      after(b + 1) == Pack(after(b), BlockItems(info, blocks[b]), size, 0)
  {
    assert AllItems(info, blocks)[b] == BlockItems(info, blocks[b]);
  }

  method RunSnippet(info: FilterInfo, blocks: seq<seq<Slot>>, bufferSize: nat) returns (returned: seq<seq<Byte>>)
    requires Snippet(info, blocks)
    requires forall b :: 0 <= b < |blocks| ==> AllFit(BlockItems(info, blocks[b]), bufferSize)
    ensures returned == AllFrames(Buffers(PackAll(AllItems(info, blocks), bufferSize, |blocks|)))
  {
    ghost var after := After(info, blocks, bufferSize);
    forall b | 0 <= b < |blocks| ensures after(b + 1) == Pack(after(b), BlockItems(info, blocks[b]), bufferSize, 0) {
      AfterNext(info, blocks, bufferSize, b);
    }
    var sender := new Sender(bufferSize);
    SendBlocks(info, blocks, sender, after);
    sender.Flush();
    returned := sender.returned;
  }

  // ---------------------------------------------------------------- what arrives

  /** The selected rows of the first m blocks, encoded, in block and row order. */
  function SelectedRows(info: FilterInfo, blocks: seq<seq<Slot>>, m: nat): seq<Byte>
    requires Snippet(info, blocks) && m <= |blocks|
  {
    if m == 0 then [] else Cat(SelectedRows(info, blocks, m - 1), Output(info, blocks[m - 1], |blocks[m - 1]|))
  }

  /** The chunk bytes of items, back to back. */
  function Payload(items: seq<Item>): seq<Byte> {
    if items == [] then [] else Cat(Payload(items[..|items| - 1]), items[|items| - 1].bytes)
  }

  predicate RowsFit(info: FilterInfo, rows: seq<Slot>)
    requires ValidOperands(info) && Block(rows)
  {
    forall j :: 0 <= j < |rows| && Selected(info, rows[j]) ==> |RowBytes(info, rows[j])| <= RES_CHUNK_SIZE
  }

  lemma {:induction false} PayloadConcat(a: seq<Item>, b: seq<Item>)
    ensures Payload(a + b) == Payload(a) + Payload(b)
    decreases |b|
  {
    if b == [] {
      assert a + b == a;
    } else {
      var p, x := b[..|b| - 1], b[|b| - 1];
      assert (a + b)[..|a + b| - 1] == a + p;
      PayloadConcat(a, p);
      CatIsConcat(Payload(a + p), x.bytes);
      CatIsConcat(Payload(p), x.bytes);
    }
  }

  lemma {:induction false} PayloadOfChunks(chunks: seq<seq<Byte>>)
    ensures Payload(ItemsOf(Lists(chunks, []))) == Flatten(chunks)
    decreases |chunks|
  {
    if chunks != [] {
      var n, items := |chunks| - 1, ItemsOf(Lists(chunks, []));
      PayloadOfChunks(chunks[..n]);
      assert items[..n] == ItemsOf(Lists(chunks[..n], []));
      CatIsConcat(Payload(items[..n]), chunks[n]);
    }
  }

  lemma BlockPayload(info: FilterInfo, rows: seq<Slot>)
    requires ValidOperands(info) && Block(rows)
    ensures Payload(BlockItems(info, rows)) == Output(info, rows, |rows|)
  {
    PayloadOfChunks(BlockChunks(info, rows));
    ChunksHoldRows(info, rows, |rows|, []);
    EmptyPrefix(Output(info, rows, |rows|));
  }

  lemma EmptyPrefix(s: seq<Byte>)
    ensures Flatten([]) + s == s
  {
  }

  lemma {:induction false} AllPayload(info: FilterInfo, blocks: seq<seq<Slot>>, m: nat)
    requires Snippet(info, blocks) && m <= |blocks|
    ensures Payload(Flatten(AllItems(info, blocks)[..m])) == SelectedRows(info, blocks, m)
    decreases m
  {
    if m > 0 {
      var all := AllItems(info, blocks);
      AllPayload(info, blocks, m - 1);
      BlockPayload(info, blocks[m - 1]);
      PayloadStep(all, m, SelectedRows(info, blocks, m - 1), Output(info, blocks[m - 1], |blocks[m - 1]|));
    }
  }

  lemma PayloadStep(all: seq<seq<Item>>, m: nat, before: seq<Byte>, more: seq<Byte>)
    requires 0 < m <= |all| && Payload(Flatten(all[..m - 1])) == before && Payload(all[m - 1]) == more
    ensures Payload(Flatten(all[..m])) == Cat(before, more)
  {
    assert all[..m] == all[..m - 1] + [all[m - 1]];
    FlattenSnoc(all[..m - 1], all[m - 1]);
    PayloadConcat(Flatten(all[..m - 1]), all[m - 1]);
    CatIsConcat(before, more);
  }

  lemma BlockSmall(info: FilterInfo, rows: seq<Slot>)
    requires ValidOperands(info) && Block(rows) && RowsFit(info, rows)
    ensures Small(BlockItems(info, rows))
    ensures AllFit(BlockItems(info, rows), RES_CHUNK_SIZE + 3)
  {
    CapacityExact(info, rows, |rows|, []);
  }

  lemma {:induction false} SmallFlatten(bs: seq<seq<Item>>)
    requires forall i :: 0 <= i < |bs| ==> Small(bs[i])
    ensures Small(Flatten(bs))
    decreases |bs|
  {
    if bs != [] {
      SmallFlatten(bs[..|bs| - 1]);
    }
  }

  /** End to end: reading the frames back from all results, one after the other, gives exactly
      the encodings of the rows that satisfy every condition, in block and row order. */
  lemma SnippetDelivers(info: FilterInfo, blocks: seq<seq<Slot>>, bufferSize: nat)
    requires Snippet(info, blocks) && forall b :: 0 <= b < |blocks| ==> RowsFit(info, blocks[b])
    requires forall b :: 0 <= b < |blocks| ==> AllFit(BlockItems(info, blocks[b]), bufferSize)
    ensures var returned := AllFrames(Buffers(PackAll(AllItems(info, blocks), bufferSize, |blocks|)));
      && (forall i :: 0 <= i < |returned| ==> |returned[i]| <= bufferSize)
      && Deframe(Flatten(returned), 0).Items?
      && Payload(Deframe(Flatten(returned), 0).items) == SelectedRows(info, blocks, |blocks|)
  {
    var all := AllItems(info, blocks);
    forall b | 0 <= b < |all| ensures Small(all[b]) {
      BlockSmall(info, blocks[b]);
    }
    SmallFlatten(all);
    FramingRoundTrip(all, bufferSize);
    AllPayload(info, blocks, |blocks|);
    assert all[..|blocks|] == all;
  }
}
