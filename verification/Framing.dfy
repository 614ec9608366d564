/** Length-prefixed framing of chunks across result buffers (tmax-lib/ex.cc:
    write_chunk_list_to_buffer) and the loop that drives it (worker.cc: tmax_working). */
module Framing {
  import opened RowData
  import opened Sequences

  /** A chunk with its flag: 0 for a result chunk, 1 for a chained one. */
  datatype Item = Item(flag: Byte, bytes: seq<Byte>)

  predicate Small(items: seq<Item>) {
    forall i :: 0 <= i < |items| ==> |items[i].bytes| < 65536
  }

  // ---------------------------------------------------------------- frames

  /** Two bytes of length, one of flag, the chunk. */
  function Frame(item: Item): (f: seq<Byte>)
    ensures |f| == 3 + |item.bytes|
  {
    [|item.bytes| / 256 % 256, |item.bytes| % 256, item.flag] + item.bytes
  }

  function Frames(items: seq<Item>): seq<Byte> {
    if items == [] then [] else Cat(Frames(items[..|items| - 1]), Frame(items[|items| - 1]))
  }

  datatype Parse = Items(items: seq<Item>) | Malformed

  function Length(hi: int, lo: int): int {
    hi * 256 + lo
  }

  /** Reading frames back from offset i. */
  function Deframe(b: seq<Byte>, i: nat): Parse
    requires i <= |b|
    decreases |b| - i
  {
    if i == |b| then Items([])
    else if i + 3 > |b| || i + 3 + Length(b[i], b[i + 1]) > |b| then Malformed
    else
      var n := Length(b[i], b[i + 1]);
      match Deframe(b, i + 3 + n)
      case Malformed => Malformed
      case Items(rest) => Items([Item(b[i + 2], b[i + 3..i + 3 + n])] + rest)
  }

  lemma FramesSnoc(items: seq<Item>, item: Item)
    ensures Frames(items + [item]) == Frames(items) + Frame(item)
  {
    assert (items + [item])[..|items|] == items;
    CatIsConcat(Frames(items), Frame(item));
  }

  lemma {:induction false} FramesConcat(a: seq<Item>, b: seq<Item>)
    ensures Frames(a + b) == Frames(a) + Frames(b)
    decreases |b|
  {
    if b == [] {
      assert a + b == a;
    } else {
      var p, x := b[..|b| - 1], b[|b| - 1];
      assert a + b == (a + p) + [x] && b == p + [x];
      FramesConcat(a, p);
      FramesSnoc(a + p, x);
      FramesSnoc(p, x);
    }
  }

  /** `f` stands at i. */
  predicate At(b: seq<Byte>, i: nat, f: seq<Byte>) {
    i + |f| <= |b| && b[i..i + |f|] == f
  }

  /** The receiver's view of a frame: a big-endian length, the flag, then as many bytes. */
  lemma FrameIs(item: Item)
    requires |item.bytes| < 65536
    ensures var f := Frame(item);
      var high: int, low: int := f[0], f[1];
      256 * high + low == |item.bytes| && f[2] == item.flag && f[3..] == item.bytes
  {
  }

  /** The frame at i, with anything before and behind it, gives its item back. */
  lemma FrameFields(b: seq<Byte>, i: nat, item: Item)
    requires |item.bytes| < 65536 && At(b, i, Frame(item))
    ensures Length(b[i], b[i + 1]) == |item.bytes|
    ensures Item(b[i + 2], b[i + 3..i + 3 + |item.bytes|]) == item
  {
    var f, n := Frame(item), |item.bytes|;
    var w := b[i..i + |f|];
    assert b[i] == w[0] && b[i + 1] == w[1] && b[i + 2] == w[2];
    assert f[3..] == item.bytes;
    assert b[i + 3..i + 3 + n] == w[3..] == f[3..];
  }

  /** The frames of items k, k+1, ... stand from i to the end. */
  predicate Framed(b: seq<Byte>, i: nat, items: seq<Item>, k: nat)
    requires k <= |items|
    decreases |items| - k
  {
    if k == |items| then i == |b|
    else At(b, i, Frame(items[k])) && Framed(b, i + |Frame(items[k])|, items, k + 1)
  }

  lemma HeadFrame(b: seq<Byte>, i: nat, f: seq<Byte>, rest: seq<Byte>)
    requires i <= |b| && b[i..] == f + rest
    ensures At(b, i, f) && b[i + |f|..] == rest
  {
    assert b[i..i + |f|] == b[i..][..|f|];
    assert b[i + |f|..] == b[i..][|f|..];
  }

  lemma {:induction false} FramesAreFramed(b: seq<Byte>, i: nat, items: seq<Item>, k: nat)
    requires k <= |items| && i <= |b| && b[i..] == Frames(items[k..])
    ensures Framed(b, i, items, k)
    decreases |items| - k
  {
    if k == |items| {
      assert items[k..] == [];
      assert |b[i..]| == 0;
    } else {
      assert items[k..] == [items[k]] + items[k + 1..];
      FramesConcat([items[k]], items[k + 1..]);
      SingleFrame(items[k]);
      HeadFrame(b, i, Frame(items[k]), Frames(items[k + 1..]));
      FramesAreFramed(b, i + |Frame(items[k])|, items, k + 1);
    }
  }

  /** Everything that was framed comes back, in order. */
  lemma {:induction false} DeframeFramed(b: seq<Byte>, i: nat, items: seq<Item>, k: nat)
    requires k <= |items| && Small(items) && i <= |b| && Framed(b, i, items, k)
    ensures Deframe(b, i) == Items(items[k..])
    decreases |items| - k
  {
    if k < |items| {
      FrameFields(b, i, items[k]);
      DeframeFramed(b, i + |Frame(items[k])|, items, k + 1);
      assert items[k..] == [items[k]] + items[k + 1..];
    }
  }

  lemma SingleFrame(item: Item)
    ensures Frames([item]) == Frame(item)
  {
    assert [item][..0] == [];
    assert Frames([]) == [];
  }

  lemma FramesRoundTrip(items: seq<Item>)
    requires Small(items)
    ensures Deframe(Frames(items), 0) == Items(items)
  {
    assert items[0..] == items && Frames(items)[0..] == Frames(items);
    FramesAreFramed(Frames(items), 0, items, 0);
    DeframeFramed(Frames(items), 0, items, 0);
  }

  // ---------------------------------------------------------------- packing into buffers

  /** The buffers sent off and the one being filled, as the items they hold. */
  datatype Packed = Packed(sent: seq<seq<Item>>, cur: seq<Item>)

  predicate Fits(item: Item, size: nat) {
    |Frame(item)| <= size
  }

  /** An item goes behind the ones in the buffer, or first into a new buffer. */
  function PackItem(p: Packed, item: Item, size: nat): Packed {
    if |Frames(p.cur)| + |Frame(item)| > size then Packed(p.sent + [p.cur], [item])
    else Packed(p.sent, p.cur + [item])
  }

  /** All items from k on. */
  function Pack(p: Packed, items: seq<Item>, size: nat, k: nat): Packed
    requires k <= |items|
    decreases |items| - k
  {
    if k == |items| then p else Pack(PackItem(p, items[k], size), items, size, k + 1)
  }

  function Buffers(p: Packed): seq<seq<Item>> {
    p.sent + [p.cur]
  }

  /** Every buffer stays within its size. */
  predicate Within(p: Packed, size: nat) {
    (forall i :: 0 <= i < |p.sent| ==> |Frames(p.sent[i])| <= size) && |Frames(p.cur)| <= size
  }

  predicate AllFit(items: seq<Item>, size: nat) {
    forall i :: 0 <= i < |items| ==> Fits(items[i], size)
  }

  lemma PackItemWithin(p: Packed, item: Item, size: nat)
    requires Within(p, size) && Fits(item, size)
    ensures Within(PackItem(p, item, size), size)
  {
    FramesSnoc(p.cur, item);
    SingleFrame(item);
  }

  lemma PackItemFlatten(p: Packed, item: Item, size: nat)
    ensures Flatten(Buffers(PackItem(p, item, size))) == Flatten(Buffers(p)) + [item]
  {
    FlattenSnoc(p.sent, p.cur);
    if |Frames(p.cur)| + |Frame(item)| > size {
      FlattenSnoc(p.sent + [p.cur], [item]);
    } else {
      FlattenSnoc(p.sent, p.cur + [item]);
      assert Flatten(p.sent) + (p.cur + [item]) == Flatten(p.sent) + p.cur + [item];
    }
  }

  /** No buffer gets larger than its size. */
  lemma {:induction false} PackWithin(p: Packed, items: seq<Item>, size: nat, k: nat)
    requires k <= |items| && Within(p, size) && AllFit(items, size)
    ensures Within(Pack(p, items, size, k), size)
    decreases |items| - k
  {
    if k < |items| {
      PackItemWithin(p, items[k], size);
      PackWithin(PackItem(p, items[k], size), items, size, k + 1);
    }
  }

  lemma TailSplit(held: seq<Item>, items: seq<Item>, k: nat)
    requires k < |items|
    ensures held + items[k..] == held + [items[k]] + items[k + 1..]
  {
  }

  /** Nothing is lost, reordered or split between buffers. */
  lemma {:induction false} PackFlatten(p: Packed, items: seq<Item>, size: nat, k: nat)
    requires k <= |items|
    ensures Flatten(Buffers(Pack(p, items, size, k))) == Flatten(Buffers(p)) + items[k..]
    decreases |items| - k
  {
    if k == |items| {
      assert Flatten(Buffers(p)) + items[k..] == Flatten(Buffers(p));
    } else {
      PackItemFlatten(p, items[k], size);
      PackFlatten(PackItem(p, items[k], size), items, size, k + 1);
      TailSplit(Flatten(Buffers(p)), items, k);
    }
  }

  // ---------------------------------------------------------------- the writer

  /** One chunk at `offset`. */
  method WriteFrame(data: array<Byte>, offset: nat, item: Item)
    requires offset + |Frame(item)| <= data.Length
    modifies data
    ensures data[..offset + |Frame(item)|] == old(data[..offset]) + Frame(item)
  {
    var n := |item.bytes|;
    data[offset] := n / 256 % 256;
    data[offset + 1] := n % 256;
    data[offset + 2] := item.flag;
    forall i | 0 <= i < n {
      data[offset + 3 + i] := item.bytes[i];
    }
    var f := Frame(item);
    assert forall i :: 0 <= i < |f| ==> data[offset + i] == f[i];
    assert data[..offset] == old(data[..offset]);
  }

  /** The first item from k on that no longer fits behind `length` bytes. */
  function Reach(items: seq<Item>, size: nat, k: nat, length: nat): (stop: nat)
    requires k <= |items|
    ensures k <= stop <= |items|
    decreases |items| - k
  {
    if k == |items| || length + |Frame(items[k])| > size then k
    else Reach(items, size, k + 1, length + |Frame(items[k])|)
  }

  /** Writes items from `idx` on until one does not fit; reports where it stopped. */
  method WriteItems(items: seq<Item>, data: array<Byte>, size: nat, idx: nat, length: nat, ghost p: Packed)
    returns (finished: bool, stop: nat, total: nat, ghost q: Packed)
    requires idx <= |items| && size <= data.Length && length <= size && data[..length] == Frames(p.cur)
    modifies data
    ensures idx <= stop <= |items| && length <= total <= size && data[..total] == Frames(q.cur)
    ensures Pack(q, items, size, stop) == Pack(p, items, size, idx) && q.sent == p.sent
    ensures stop == idx ==> q == p && total == length
    ensures stop == Reach(items, size, idx, length)
    ensures finished <==> stop == |items|
    ensures !finished ==> total + |Frame(items[stop])| > size
  {
    total, stop, q := length, idx, p;
    while stop < |items|
      invariant idx <= stop <= |items| && length <= total <= size && data[..total] == Frames(q.cur)
      invariant Pack(q, items, size, stop) == Pack(p, items, size, idx) && q.sent == p.sent
      invariant stop == idx ==> q == p && total == length
      invariant Reach(items, size, idx, length) == Reach(items, size, stop, total)
    {
      if total + |items[stop].bytes| + 3 > size {
        finished := false;
        return;
      }
      WriteFrame(data, total, items[stop]);
      FramesSnoc(q.cur, items[stop]);
      q := PackItem(q, items[stop], size);
      total := total + 3 + |items[stop].bytes|;
      stop := stop + 1;
    }
    finished := true;
  }

  // ---------------------------------------------------------------- the driver

  /** After a flush the item that did not fit goes first into the next buffer. */
  lemma FlushAhead(p: Packed, items: seq<Item>, size: nat, k: nat)
    requires k < |items| && |Frames(p.cur)| + |Frame(items[k])| > size && Fits(items[k], size)
    ensures Pack(Packed(p.sent + [p.cur], []), items, size, k) == Pack(p, items, size, k)
  {
    assert Frames([]) == [];
    assert [] + [items[k]] == [items[k]];
  }

  function AllFrames(bs: seq<seq<Item>>): (r: seq<seq<Byte>>)
    ensures |r| == |bs| && forall i :: 0 <= i < |bs| ==> r[i] == Frames(bs[i])
  {
    seq(|bs|, (i: nat) requires i < |bs| => Frames(bs[i]))
  }

  /** The result being filled and the results handed to the return queue. */
  class Sender {
    const size: nat
    const data: array<Byte>
    var length: nat
    var returned: seq<seq<Byte>>
    ghost var packed: Packed

    ghost predicate Valid()
      reads this, data
    {
      && data.Length == size && length <= size
      && data[..length] == Frames(packed.cur) && returned == AllFrames(packed.sent)
      && Within(packed, size)
    }

    constructor (bufferSize: nat)
      ensures Valid() && size == bufferSize && packed == Packed([], []) && fresh(data)
    {
      size := bufferSize;
      data := new Byte[bufferSize];
      length := 0;
      returned := [];
      packed := Packed([], []);
    }

    /** enqueue_return copies the used part; init_result starts over. */
    method Flush()
      requires Valid()
      modifies this, data
      ensures Valid() && length == 0 && returned == old(returned) + [old(data[..length])]
      ensures packed == Packed(old(packed.sent) + [old(packed.cur)], [])
    {
      returned := returned + [data[..length]];
      packed := Packed(packed.sent + [packed.cur], []);
      length := 0;
      forall i | 0 <= i < data.Length {
        data[i] := 0;
      }
      assert Frames([]) == [];
    }

    /** One block: write, and flush whenever the buffer is full. */
    method SendBlock(items: seq<Item>)
      requires Valid() && AllFit(items, size)
      modifies this, data
      ensures Valid() && packed == Pack(old(packed), items, size, 0)
    {
      var idx, finished := 0, false;
      while !finished
        invariant Valid() && idx <= |items| && (finished ==> idx == |items|)
        invariant Pack(packed, items, size, idx) == Pack(old(packed), items, size, 0)
        decreases |items| - idx, length, !finished
      {
        ghost var q;
        finished, idx, length, q := WriteItems(items, data, size, idx, length, packed);
        packed := q;
        if !finished {
          FlushAhead(packed, items, size, idx);
          Flush();
        }
      }
    }
  }

  // ---------------------------------------------------------------- the round trip

  function PackAll(blocks: seq<seq<Item>>, size: nat, m: nat): Packed
    requires m <= |blocks|
  {
    if m == 0 then Packed([], []) else Pack(PackAll(blocks, size, m - 1), blocks[m - 1], size, 0)
  }

  lemma {:induction false} PackAllWithin(blocks: seq<seq<Item>>, size: nat, m: nat)
    requires m <= |blocks| && forall b :: 0 <= b < |blocks| ==> AllFit(blocks[b], size)
    ensures Within(PackAll(blocks, size, m), size)
    decreases m
  {
    if m == 0 {
      assert Frames([]) == [];
    } else {
      PackAllWithin(blocks, size, m - 1);
      PackWithin(PackAll(blocks, size, m - 1), blocks[m - 1], size, 0);
    }
  }

  lemma {:induction false} PackAllFlatten(blocks: seq<seq<Item>>, size: nat, m: nat)
    requires m <= |blocks|
    ensures Flatten(Buffers(PackAll(blocks, size, m))) == Flatten(blocks[..m])
    decreases m
  {
    if m == 0 {
      var none: seq<Item> := [];
      FlattenSnoc([], none);
      assert blocks[..0] == [] && Buffers(PackAll(blocks, size, 0)) == [] + [none];
    } else {
      PackAllFlatten(blocks, size, m - 1);
      PackFlatten(PackAll(blocks, size, m - 1), blocks[m - 1], size, 0);
      assert blocks[m - 1][0..] == blocks[m - 1];
      assert blocks[..m] == blocks[..m - 1] + [blocks[m - 1]];
      FlattenSnoc(blocks[..m - 1], blocks[m - 1]);
    }
  }

  // ---------------------------------------------------------------- how many buffers

  /** The frames of the items, one by one. */
  function EachFrame(items: seq<Item>): (r: seq<Row>)
    ensures |r| == |items| && forall i :: 0 <= i < |r| ==> r[i] == Frame(items[i])
  {
    seq(|items|, (i: nat) requires i < |items| => Frame(items[i]))
  }

  /** The buffers sent off so far are those that overflowed with the frames of `items`. */
  predicate Greedy(p: Packed, items: seq<Item>, size: nat) {
    && |p.sent| == Flushes(EachFrame(items), size, |items|)
    && |Frames(p.cur)| == HeldLength(EachFrame(items), size, |items|)
  }

  lemma PackItemGreedy(p: Packed, items: seq<Item>, item: Item, size: nat)
    requires Greedy(p, items, size)
    ensures Greedy(PackItem(p, item, size), items + [item], size)
  {
    assert EachFrame(items + [item]) == EachFrame(items) + [Frame(item)];
    FlushesSnoc(EachFrame(items), Frame(item), size);
    FramesSnoc(p.cur, item);
    SingleFrame(item);
  }

  lemma {:induction false} PackGreedy(p: Packed, before: seq<Item>, items: seq<Item>, size: nat, k: nat)
    requires k <= |items| && Greedy(p, before, size)
    ensures Greedy(Pack(p, items, size, k), before + items[k..], size)
    decreases |items| - k
  {
    if k == |items| {
      assert before + items[k..] == before;
    } else {
      PackItemGreedy(p, before, items[k], size);
      PackGreedy(PackItem(p, items[k], size), before + [items[k]], items, size, k + 1);
      TailSplit(before, items, k);
    }
  }

  /** A buffer is sent off only when the next chunk does not fit: as many results as the frame lengths
      of all chunks in a row make necessary, and the last one. */
  lemma {:induction false} ResultCount(blocks: seq<seq<Item>>, size: nat, m: nat)
    requires m <= |blocks|
    ensures Greedy(PackAll(blocks, size, m), Flatten(blocks[..m]), size)
    decreases m
  {
    if m == 0 {
      assert blocks[..0] == [] && Frames([]) == [];
    } else {
      ResultCount(blocks, size, m - 1);
      PackGreedy(PackAll(blocks, size, m - 1), Flatten(blocks[..m - 1]), blocks[m - 1], size, 0);
      assert blocks[m - 1][0..] == blocks[m - 1] && blocks[..m] == blocks[..m - 1] + [blocks[m - 1]];
      FlattenSnoc(blocks[..m - 1], blocks[m - 1]);
    }
  }

  lemma {:induction false} FlattenFrames(bs: seq<seq<Item>>)
    ensures Flatten(AllFrames(bs)) == Frames(Flatten(bs))
    decreases |bs|
  {
    if bs != [] {
      var head, last := bs[..|bs| - 1], bs[|bs| - 1];
      FlattenFrames(head);
      FramesConcat(Flatten(head), last);
      assert AllFrames(bs)[..|bs| - 1] == AllFrames(head);
    }
  }

  lemma BuffersSmall(blocks: seq<seq<Item>>, size: nat, i: nat)
    requires (forall b :: 0 <= b < |blocks| ==> AllFit(blocks[b], size)) && Small(Flatten(blocks))
    requires i < |Buffers(PackAll(blocks, size, |blocks|))|
    ensures var bs := Buffers(PackAll(blocks, size, |blocks|));
      |Frames(bs[i])| <= size && Deframe(Frames(bs[i]), 0) == Items(bs[i])
  {
    var bs := Buffers(PackAll(blocks, size, |blocks|));
    PackAllWithin(blocks, size, |blocks|);
    BuffersHoldAll(blocks, size);
    PartSmall(bs, i);
    FramesRoundTrip(bs[i]);
  }

  lemma BuffersHoldAll(blocks: seq<seq<Item>>, size: nat)
    ensures Flatten(Buffers(PackAll(blocks, size, |blocks|))) == Flatten(blocks)
  {
    PackAllFlatten(blocks, size, |blocks|);
    assert blocks[..|blocks|] == blocks;
  }

  lemma AllReadBack(bs: seq<seq<Item>>)
    requires Small(Flatten(bs))
    ensures Deframe(Flatten(AllFrames(bs)), 0) == Items(Flatten(bs))
  {
    FlattenFrames(bs);
    FramesRoundTrip(Flatten(bs));
  }

  /** What the return queue holds after all blocks: no buffer is too large, each one alone reads
      back as whole chunks, and all of them together as the chunks of all blocks, in order. */
  lemma FramingRoundTrip(blocks: seq<seq<Item>>, size: nat)
    requires (forall b :: 0 <= b < |blocks| ==> AllFit(blocks[b], size)) && Small(Flatten(blocks))
    ensures var bs := Buffers(PackAll(blocks, size, |blocks|));
      && Flatten(bs) == Flatten(blocks)
      && (forall i :: 0 <= i < |bs| ==> |AllFrames(bs)[i]| <= size)
      && (forall i :: 0 <= i < |bs| ==> Deframe(AllFrames(bs)[i], 0) == Items(bs[i]))
      && Deframe(Flatten(AllFrames(bs)), 0) == Items(Flatten(blocks))
  {
    var bs := Buffers(PackAll(blocks, size, |blocks|));
    BuffersHoldAll(blocks, size);
    AllReadBack(bs);
    forall i | 0 <= i < |bs|
      ensures |AllFrames(bs)[i]| <= size && Deframe(AllFrames(bs)[i], 0) == Items(bs[i])
    {
      BuffersSmall(blocks, size, i);
    }
  }

  lemma {:induction false} PartSmall(bs: seq<seq<Item>>, i: nat)
    requires i < |bs| && Small(Flatten(bs))
    ensures Small(bs[i])
    decreases |bs|
  {
    var head, last := bs[..|bs| - 1], bs[|bs| - 1];
    var f := Flatten(bs);
    assert f == Flatten(head) + last;
    assert forall k :: 0 <= k < |last| ==> last[k] == f[|Flatten(head)| + k];
    assert forall k :: 0 <= k < |Flatten(head)| ==> Flatten(head)[k] == f[k];
    if i < |bs| - 1 {
      PartSmall(head, i);
    }
  }

  // ---------------------------------------------------------------- termination

  /** Where the driver stands after n flushes in one block. */
  function Position(items: seq<Item>, size: nat, length: nat, n: nat): (k: nat)
    ensures k <= |items|
  {
    if n == 0 then Reach(items, size, 0, length) else Reach(items, size, Position(items, size, length, n - 1), 0)
  }

  lemma {:induction false} ReachStops(items: seq<Item>, size: nat, k: nat, length: nat, j: nat)
    requires k <= j < |items| && !Fits(items[j], size)
    ensures Reach(items, size, k, length) <= j
    decreases |items| - k
  {
    if Reach(items, size, k, length) != k && k < j {
      ReachStops(items, size, k + 1, length + |Frame(items[k])|, j);
    }
  }

  lemma {:induction false} StuckBefore(items: seq<Item>, size: nat, length: nat, n: nat, j: nat)
    requires j < |items| && !Fits(items[j], size)
    ensures Position(items, size, length, n) <= j
    decreases n
  {
    if n == 0 {
      ReachStops(items, size, 0, length, j);
    } else {
      StuckBefore(items, size, length, n - 1, j);
      ReachStops(items, size, Position(items, size, length, n - 1), 0, j);
    }
  }

  lemma {:induction false} MovesOn(items: seq<Item>, size: nat, length: nat, n: nat)
    requires AllFit(items, size)
    ensures Position(items, size, length, n) >= if n <= |items| then n else |items|
    decreases n
  {
    if n > 0 {
      MovesOn(items, size, length, n - 1);
    }
  }

  /** The driver loop ends if and only if every chunk fits an empty buffer. */
  lemma DriverEndsExactly(items: seq<Item>, size: nat, length: nat)
    ensures (exists n :: Position(items, size, length, n) == |items|) <==> AllFit(items, size)
  {
    if AllFit(items, size) {
      MovesOn(items, size, length, |items|);
      assert Position(items, size, length, |items|) == |items|;
    } else {
      var j :| 0 <= j < |items| && !Fits(items[j], size);
      forall n: nat ensures Position(items, size, length, n) != |items| {
        StuckBefore(items, size, length, n, j);
      }
    }
  }

  // ---------------------------------------------------------------- the two chunk lists

  datatype Lists = Lists(res: seq<seq<Byte>>, chained: seq<seq<Byte>>)

  /** Chunk i is a result chunk, or chained[i]: the number of result chunks is not taken off. */
  predicate Indexable(c: Lists, i: nat) {
    i < |c.res| || i < |c.chained|
  }

  /** That stays inside the lists if and only if one of them is empty. */
  lemma IndexableExactly(c: Lists)
    ensures (forall i :: 0 <= i < |c.res| + |c.chained| ==> Indexable(c, i)) <==> c.res == [] || c.chained == []
  {
    if c.res != [] && c.chained != [] {
      assert !Indexable(c, |c.res| + |c.chained| - 1);
    }
  }

  /** The chunks in the order the writer takes them. */
  function ItemsOf(c: Lists): (items: seq<Item>)
    requires c.res == [] || c.chained == []
    ensures |items| == |c.res| + |c.chained|
    ensures forall i :: 0 <= i < |c.res| ==> items[i] == Item(0, c.res[i])
    ensures forall i :: 0 <= i < |c.chained| ==> items[|c.res| + i] == Item(1, c.chained[i])
  {
    seq(|c.res| + |c.chained|, (i: nat) requires i < |c.res| + |c.chained| =>
      if i < |c.res| then Item(0, c.res[i]) else Item(1, c.chained[i]))
  }
}
