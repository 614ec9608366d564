/** When a merge buffer is handed to the return layer before its snippet is done (projection.cc:
    projectioning): exactly when the next row does not fit. */
module ProjectionFlushes {
  import opened RowData
  import opened Projection
  import opened ProjectionSafety
  import opened ProjectionRuns
  import opened ProjectionEnds

  // ---------------------------------------------------------------- one row

  /** The row that worker w merges next, and the snippet it belongs to. */
  function NextRow(c: Config, s: State, w: nat): Row
    requires Enabled(c, s, MergeRow(w))
  {
    var b := BatchOf(c, s, w);
    c.project(KeyOf(c, b), c.batches[b].data.rows[s.stage[b].next])
  }

  /** A row that fits is appended and nothing is returned; one that does not first sends off what is
      there, unflagged, and then stands alone. */
  lemma MergeRowReturns(c: Config, s: State, w: nat)
    requires Enabled(c, s, MergeRow(w))
    ensures var k, t, r := KeyOf(c, BatchOf(c, s, w)), Apply(c, s, MergeRow(w)), NextRow(c, s, w);
      var d := Lookup(s.workers[w].buffers, k);
      && |t.workers| == |s.workers| && k in t.workers[w].buffers
      && (|Flatten(d.rows)| + |r| <= c.bufferSize ==>
          t.returned == s.returned && t.workers[w].buffers[k].rows == d.rows + [r])
      && (|Flatten(d.rows)| + |r| > c.bufferSize ==>
          t.returned == s.returned + [Returned(k, d, false)] && t.workers[w].buffers[k].rows == [r])
  {
    assert [] + [NextRow(c, s, w)] == [NextRow(c, s, w)];
  }

  // ---------------------------------------------------------------- a whole run

  /** The packets of k without the flag of a release. */
  function Unflagged(log: seq<Returned>, k: Key): nat {
    if log == [] then 0 else (if log[0].key == k && !log[0].last then 1 else 0) + Unflagged(log[1..], k)
  }

  lemma {:induction false} UnflaggedConcat(a: seq<Returned>, b: seq<Returned>, k: Key)
    ensures Unflagged(a + b, k) == Unflagged(a, k) + Unflagged(b, k)
    decreases |a|
  {
    if a == [] {
      assert a + b == b;
    } else {
      assert (a + b)[1..] == a[1..] + b;
      UnflaggedConcat(a[1..], b, k);
    }
  }

  lemma UnflaggedOne(log: seq<Returned>, e: Returned, k: Key)
    ensures Unflagged(log + [e], k) == Unflagged(log, k) + if e.key == k && !e.last then 1 else 0
  {
    UnflaggedConcat(log, [e], k);
    assert [e][1..] == [];
  }

  /** The rows of k each worker has merged, one more step on. */
  function Fed(c: Config, s: State, step: Step, k: Key, fed: seq<seq<Row>>): seq<seq<Row>>
    requires Enabled(c, s, step)
  {
    if step.MergeRow? && step.w < |fed| && KeyOf(c, BatchOf(c, s, step.w)) == k
    then fed[step.w := fed[step.w] + [NextRow(c, s, step.w)]] else fed
  }

  /** And after a whole schedule. */
  function FedBy(c: Config, s: State, steps: seq<Step>, k: Key, fed: seq<seq<Row>>): seq<seq<Row>>
    decreases |steps|
  {
    if steps == [] || !Enabled(c, s, steps[0]) then fed
    else FedBy(c, Apply(c, s, steps[0]), steps[1..], k, Fed(c, s, steps[0], k, fed))
  }

  /** How often a worker's rows overflow its buffer, over the first n workers. */
  function AllFlushes(fed: seq<seq<Row>>, size: nat, n: nat): nat
    requires n <= |fed|
  {
    if n == 0 then 0 else AllFlushes(fed, size, n - 1) + Flushes(fed[n - 1], size, |fed[n - 1]|)
  }

  lemma {:induction false} FlushesUpdate(fed: seq<seq<Row>>, w: nat, rows: seq<Row>, size: nat, n: nat)
    requires n <= |fed| && w < |fed|
    ensures AllFlushes(fed[w := rows], size, n) == AllFlushes(fed, size, n)
      + (if w < n then Flushes(rows, size, |rows|) - Flushes(fed[w], size, |fed[w]|) else 0)
    decreases n
  {
    if n > 0 {
      FlushesUpdate(fed, w, rows, size, n - 1);
    }
  }

  predicate Holding(x: Worker, k: Key, rows: seq<Row>, size: nat) {
    Lookup(x.buffers, k).rows == HeldRows(rows, size, |rows|)
  }

  /** Every buffer holds the rows since its last overflow, and there is a packet for each overflow. */
  predicate Streams(c: Config, s: State, k: Key, fed: seq<seq<Row>>) {
    && |s.workers| == |fed| && (forall w :: 0 <= w < |fed| ==> Holding(s.workers[w], k, fed[w], c.bufferSize))
    && Unflagged(s.returned, k) == AllFlushes(fed, c.bufferSize, |fed|)
  }

  /** k has not been released, and a worker that merges for k has its buffer. */
  predicate Unreleased(c: Config, s: State, k: Key)
    requires Shape(c, s)
  {
    && Flags(s.returned, k) == 0
    && forall b :: 0 <= b < |s.stage| && KeyOf(c, b) == k && Keeps(s.stage[b]) ==>
      s.stage[b].w < |s.workers| && k in s.workers[s.stage[b].w].buffers
  }

  // ---------------------------------------------------------------- the steps

  lemma HeldSnoc(rows: seq<Row>, r: Row, size: nat)
    ensures var held, more := HeldRows(rows, size, |rows|), rows + [r];
      && HeldRows(more, size, |more|) == (if |Flatten(held)| + |r| > size then [] else held) + [r]
      && Flushes(more, size, |more|) == Flushes(rows, size, |rows|) + (if |Flatten(held)| + |r| > size then 1 else 0)
  {
    FlushesSnoc(rows, r, size);
    HeldRowsLength(rows, size, |rows|);
  }

  /** A row of k, in the buffer it goes to and in the packets. */
  lemma MergeHolding(c: Config, s: State, w: nat, k: Key, rows: seq<Row>)
    requires Enabled(c, s, MergeRow(w)) && KeyOf(c, BatchOf(c, s, w)) == k
    requires Holding(s.workers[w], k, rows, c.bufferSize)
    ensures var t, more := Apply(c, s, MergeRow(w)), rows + [NextRow(c, s, w)];
      && |t.workers| == |s.workers| && Holding(t.workers[w], k, more, c.bufferSize)
      && Unflagged(t.returned, k) - Unflagged(s.returned, k)
         == Flushes(more, c.bufferSize, |more|) - Flushes(rows, c.bufferSize, |rows|)
  {
    var r, d := NextRow(c, s, w), Lookup(s.workers[w].buffers, k);
    MergeRowReturns(c, s, w);
    HeldSnoc(rows, r, c.bufferSize);
    UnflaggedOne(s.returned, Returned(k, d, false), k);
    assert [] + [r] == [r];
  }

  lemma MergeKeepsOthers(c: Config, s: State, w: nat, x: nat)
    requires Enabled(c, s, MergeRow(w)) && x < |s.workers| && x != w
    ensures x < |Apply(c, s, MergeRow(w)).workers| && Apply(c, s, MergeRow(w)).workers[x] == s.workers[x]
  {
  }

  lemma MergeOwn(c: Config, s: State, w: nat, k: Key, fed: seq<seq<Row>>)
    requires Enabled(c, s, MergeRow(w)) && KeyOf(c, BatchOf(c, s, w)) == k && Streams(c, s, k, fed)
    ensures Streams(c, Apply(c, s, MergeRow(w)), k, Fed(c, s, MergeRow(w), k, fed))
  {
    var t, rows := Apply(c, s, MergeRow(w)), fed[w] + [NextRow(c, s, w)];
    assert Holding(s.workers[w], k, fed[w], c.bufferSize);
    MergeHolding(c, s, w, k, fed[w]);
    FlushesUpdate(fed, w, rows, c.bufferSize, |fed|);
    forall x | 0 <= x < |fed| ensures Holding(t.workers[x], k, fed[w := rows][x], c.bufferSize) {
      if x != w {
        MergeKeepsOthers(c, s, w, x);
        assert Holding(s.workers[x], k, fed[x], c.bufferSize);
      }
    }
  }

  /** What leaves the buffers of k as they are, and returns no unflagged packet of k. */
  lemma Untouched(c: Config, s: State, t: State, k: Key, fed: seq<seq<Row>>)
    requires Streams(c, s, k, fed) && |t.workers| == |s.workers| && Unflagged(t.returned, k) == Unflagged(s.returned, k)
    requires forall w :: 0 <= w < |s.workers| ==>
      Lookup(t.workers[w].buffers, k).rows == Lookup(s.workers[w].buffers, k).rows
    ensures Streams(c, t, k, fed)
  {
    forall w | 0 <= w < |fed| ensures Holding(t.workers[w], k, fed[w], c.bufferSize) {
      assert Holding(s.workers[w], k, fed[w], c.bufferSize);
    }
  }

  lemma {:induction false} ReleaseOthers(ws: seq<Worker>, j: Key, flag: bool, k: Key)
    requires j != k
    ensures Unflagged(ReleaseLog(ws, j, flag), k) == 0
    decreases |ws|
  {
    if ws != [] {
      ReleaseOthers(ws[1..], j, false, k);
      ReleaseOthers(ws[1..], j, flag, k);
      var log := ReleaseLog(ws, j, flag);
      assert j in ws[0].buffers ==> log[1..] == ReleaseLog(ws[1..], j, false);
    }
  }

  lemma CountDownOther(c: Config, s: State, w: nat, k: Key, fed: seq<seq<Row>>)
    requires Enabled(c, s, CountDown(w)) && KeyOf(c, BatchOf(c, s, w)) != k && Streams(c, s, k, fed)
    ensures Streams(c, Apply(c, s, CountDown(w)), k, fed)
  {
    var b := BatchOf(c, s, w);
    OtherReleased(Given(c, s, w), KeyOf(c, b), c.batches[b].data.blockCount, k);
    Untouched(c, s, Apply(c, s, CountDown(w)), k, fed);
  }

  lemma OtherReleased(g: State, j: Key, blocks: int, k: Key)
    requires j != k
    ensures var t := CountDownKey(g, j, blocks);
      && |t.workers| == |g.workers| && Unflagged(t.returned, k) == Unflagged(g.returned, k)
      && forall x :: 0 <= x < |g.workers| ==> Lookup(t.workers[x].buffers, k) == Lookup(g.workers[x].buffers, k)
  {
    ReleaseOthers(g.workers, j, true, k);
    UnflaggedConcat(g.returned, ReleaseLog(g.workers, j, true), k);
  }

  /** A countdown of k that does not release it. */
  lemma CountDownOwn(c: Config, s: State, w: nat, k: Key, fed: seq<seq<Row>>)
    requires Struct(c, s) && Unreleased(c, s, k) && Streams(c, s, k, fed)
    requires Enabled(c, s, CountDown(w)) && KeyOf(c, BatchOf(c, s, w)) == k
    requires Flags(Apply(c, s, CountDown(w)).returned, k) == 0
    ensures Streams(c, Apply(c, s, CountDown(w)), k, fed)
  {
    assert Keeps(s.stage[BatchOf(c, s, w)]) && k in s.workers[w].buffers;
    if k in s.counts {
      CountDownEffect(c, s, w);
    }
    Untouched(c, s, Apply(c, s, CountDown(w)), k, fed);
  }

  lemma MergeOther(c: Config, s: State, w: nat, k: Key, fed: seq<seq<Row>>)
    requires Enabled(c, s, MergeRow(w)) && KeyOf(c, BatchOf(c, s, w)) != k && Streams(c, s, k, fed)
    ensures Streams(c, Apply(c, s, MergeRow(w)), k, fed)
  {
    var j := KeyOf(c, BatchOf(c, s, w));
    MergeRowReturns(c, s, w);
    UnflaggedOne(s.returned, Returned(j, Lookup(s.workers[w].buffers, j), false), k);
    Untouched(c, s, Apply(c, s, MergeRow(w)), k, fed);
  }

  lemma StepStreams(c: Config, s: State, step: Step, k: Key, fed: seq<seq<Row>>)
    requires Struct(c, s) && Enabled(c, s, step) && Unreleased(c, s, k) && Streams(c, s, k, fed)
    requires Flags(Apply(c, s, step).returned, k) == 0
    ensures Streams(c, Apply(c, s, step), k, Fed(c, s, step, k, fed))
  {
    match step
    case MergeRow(w) =>
      if KeyOf(c, BatchOf(c, s, w)) == k {
        MergeOwn(c, s, w, k, fed);
      } else {
        MergeOther(c, s, w, k, fed);
      }
    case CountDown(w) =>
      if KeyOf(c, BatchOf(c, s, w)) == k {
        CountDownOwn(c, s, w, k, fed);
      } else {
        CountDownOther(c, s, w, k, fed);
      }
    case _ =>
      Untouched(c, s, Apply(c, s, step), k, fed);
  }

  lemma StepUnreleased(c: Config, s: State, step: Step, k: Key)
    requires Struct(c, s) && Enabled(c, s, step) && Unreleased(c, s, k)
    requires Flags(Apply(c, s, step).returned, k) == 0
    ensures Shape(c, Apply(c, s, step)) && Unreleased(c, Apply(c, s, step), k)
  {
    if step.CountDown? {
      var b := BatchOf(c, s, step.w);
      assert Keeps(s.stage[b]);
      if KeyOf(c, b) == k && k in s.counts {
        CountDownEffect(c, s, step.w);
      } else if KeyOf(c, b) != k {
        CountDownFrame(Given(c, s, step.w), KeyOf(c, b), c.batches[b].data.blockCount, k, BlockCount);
      }
    } else {
      WorkMove(c, s, step, k);
    }
  }

  lemma {:induction false} RunFlags(c: Config, s: State, steps: seq<Step>, k: Key)
    requires Struct(c, s) && Exec(c, s, steps).At?
    ensures 0 <= Flags(s.returned, k) <= Flags(Exec(c, s, steps).state.returned, k)
    decreases |steps|
  {
    FlagsSign(s.returned, k);
    if steps != [] {
      StepStruct(c, s, steps[0]);
      FlagsGrow(c, s, steps[0], k);
      RunFlags(c, Apply(c, s, steps[0]), steps[1..], k);
    }
  }

  lemma {:induction false} RunStreams(c: Config, s: State, steps: seq<Step>, k: Key, fed: seq<seq<Row>>)
    requires Struct(c, s) && Unreleased(c, s, k) && Streams(c, s, k, fed)
    requires Exec(c, s, steps).At? && Flags(Exec(c, s, steps).state.returned, k) == 0
    ensures Streams(c, Exec(c, s, steps).state, k, FedBy(c, s, steps, k, fed))
    decreases |steps|
  {
    if steps != [] {
      var t := Apply(c, s, steps[0]);
      StepStruct(c, s, steps[0]);
      RunFlags(c, t, steps[1..], k);
      StepUnreleased(c, s, steps[0], k);
      StepStreams(c, s, steps[0], k, fed);
      RunStreams(c, t, steps[1..], k, Fed(c, s, steps[0], k, fed));
    }
  }

  function NoRows(n: nat): (fed: seq<seq<Row>>)
    ensures |fed| == n && forall w :: 0 <= w < n ==> fed[w] == []
  {
    seq(n, i => [])
  }

  lemma {:induction false} NoFlushes(n: nat, size: nat, m: nat)
    requires m <= n
    ensures AllFlushes(NoRows(n), size, m) == 0
    decreases m
  {
    if m > 0 {
      NoFlushes(n, size, m - 1);
    }
  }

  /** Under every schedule, until k is released: each worker's buffer holds what it has merged for k
      since its last overflow, and there are as many packets of k as overflows, which the lengths of
      the merged rows and the buffer size alone decide. */
  lemma FlushCount(c: Config, steps: seq<Step>, k: Key)
    requires Exec(c, Init(c), steps).At? && Flags(Exec(c, Init(c), steps).state.returned, k) == 0
    ensures Streams(c, Exec(c, Init(c), steps).state, k, FedBy(c, Init(c), steps, k, NoRows(c.workers)))
  {
    InitStruct(c);
    NoFlushes(c.workers, c.bufferSize, c.workers);
    RunStreams(c, Init(c), steps, k, NoRows(c.workers));
  }
}
