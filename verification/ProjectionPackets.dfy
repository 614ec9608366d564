/** How many packets a released snippet comes in (projection.cc: projectioning,
    block_count_down_and_release_buffer): one for every overflow and one for every worker that served it. */
module ProjectionPackets {
  import opened RowData
  import opened Projection
  import opened ProjectionSafety
  import opened ProjectionRuns
  import opened ProjectionEnds
  import opened ProjectionFlushes
  import opened ProjectionOrder

  // ---------------------------------------------------------------- who has a buffer

  /** The workers that have opened a buffer for k, one more step on. */
  function Opened(c: Config, s: State, step: Step, k: Key, used: set<nat>): set<nat>
    requires Enabled(c, s, step)
  {
    if step.CheckIdBuffer? && KeyOf(c, BatchOf(c, s, step.w)) == k then used + {step.w} else used
  }

  /** And after a whole schedule. */
  function OpenedBy(c: Config, s: State, steps: seq<Step>, k: Key, used: set<nat>): set<nat>
    decreases |steps|
  {
    if steps == [] || !Enabled(c, s, steps[0]) then used
    else OpenedBy(c, Apply(c, s, steps[0]), steps[1..], k, Opened(c, s, steps[0], k, used))
  }

  predicate Owners(ws: seq<Worker>, k: Key, n: nat, used: set<nat>)
    requires n <= |ws|
  {
    used == set w: nat | w < n && k in ws[w].buffers
  }

  lemma {:induction false} OwnerCount(ws: seq<Worker>, k: Key, n: nat, used: set<nat>)
    requires n <= |ws| && Owners(ws, k, n, used)
    ensures |Holders(ws, k, n)| == |used|
    decreases n
  {
    if n == 0 {
      assert used == {};
    } else {
      OwnerCount(ws, k, n - 1, used - {n - 1});
    }
  }

  lemma CountDownOwners(c: Config, s: State, w: nat, k: Key, used: set<nat>)
    requires Struct(c, s) && Enabled(c, s, CountDown(w)) && Unreleased(c, s, k)
    requires Owners(s.workers, k, |s.workers|, used) && Flags(Apply(c, s, CountDown(w)).returned, k) == 0
    ensures var t := Apply(c, s, CountDown(w)); Owners(t.workers, k, |t.workers|, used)
  {
    var b := BatchOf(c, s, w);
    assert Keeps(s.stage[b]);
    if KeyOf(c, b) == k && k in s.counts {
      CountDownEffect(c, s, w);
    } else if KeyOf(c, b) != k {
      CountDownFrame(Given(c, s, w), KeyOf(c, b), c.batches[b].data.blockCount, k, BlockCount);
    }
  }

  lemma MergeOwners(c: Config, s: State, w: nat, k: Key, used: set<nat>)
    requires Enabled(c, s, MergeRow(w)) && Unreleased(c, s, k) && Owners(s.workers, k, |s.workers|, used)
    ensures var t := Apply(c, s, MergeRow(w)); Owners(t.workers, k, |t.workers|, used)
  {
    assert Keeps(s.stage[BatchOf(c, s, w)]);
  }

  lemma StepOwners(c: Config, s: State, step: Step, k: Key, used: set<nat>)
    requires Struct(c, s) && Enabled(c, s, step) && Unreleased(c, s, k) && Owners(s.workers, k, |s.workers|, used)
    requires Flags(Apply(c, s, step).returned, k) == 0
    ensures var t := Apply(c, s, step); Owners(t.workers, k, |t.workers|, Opened(c, s, step, k, used))
  {
    match step
    case CountDown(w) => CountDownOwners(c, s, w, k, used);
    case MergeRow(w) => MergeOwners(c, s, w, k, used);
    case AddCounts(w) => assert Keeps(s.stage[BatchOf(c, s, w)]);
    case _ =>
  }

  // ---------------------------------------------------------------- the release

  lemma {:induction false} EveryPacket(log: seq<Returned>, k: Key)
    requires forall i :: 0 <= i < |log| ==> log[i].key == k
    ensures Unflagged(log, k) + Flags(log, k) == |log|
    decreases |log|
  {
    if log != [] {
      EveryPacket(log[1..], k);
    }
  }

  lemma ReleasePackets(s: State, k: Key, used: set<nat>)
    requires Owners(s.workers, k, |s.workers|, used)
    ensures var t := Release(s, k);
      Unflagged(t.returned, k) + Flags(t.returned, k) == Unflagged(s.returned, k) + Flags(s.returned, k) + |used|
  {
    var log, n := ReleaseLog(s.workers, k, true), |s.workers|;
    assert s.workers[..n] == s.workers;
    ReleaseOrder(s.workers, k, n);
    OwnerCount(s.workers, k, n, used);
    EveryPacket(log, k);
    UnflaggedConcat(s.returned, log, k);
    FlagsConcat(s.returned, log, k);
  }

  /** As many packets as overflows and buffers opened. */
  predicate Delivered(c: Config, s: State, k: Key, fed: seq<seq<Row>>, used: set<nat>) {
    Unflagged(s.returned, k) + Flags(s.returned, k) == AllFlushes(fed, c.bufferSize, |fed|) + |used|
  }

  lemma ReleaseStep(c: Config, s: State, step: Step, k: Key, fed: seq<seq<Row>>, used: set<nat>)
    requires Struct(c, s) && Enabled(c, s, step) && Unreleased(c, s, k)
    requires Streams(c, s, k, fed) && Owners(s.workers, k, |s.workers|, used)
    requires Flags(Apply(c, s, step).returned, k) != 0
    ensures step.CountDown? && Delivered(c, Apply(c, s, step), k, fed, used)
  {
    if !step.CountDown? {
      WorkMove(c, s, step, k);
      assert false;
    }
    var b, g := BatchOf(c, s, step.w), Given(c, s, step.w);
    if KeyOf(c, b) != k {
      CountDownFrame(g, KeyOf(c, b), c.batches[b].data.blockCount, k, BlockCount);
      assert false;
    }
    assert Owners(g.workers, k, |g.workers|, used);
    ReleasePackets(g, k, used);
  }

  // ---------------------------------------------------------------- afterwards

  /** A step that works on another snippet. */
  lemma OtherStep(c: Config, s: State, step: Step, k: Key)
    requires Enabled(c, s, step) && Moved(c, s, step) < |c.batches| && KeyOf(c, Moved(c, s, step)) != k
    ensures Unflagged(Apply(c, s, step).returned, k) == Unflagged(s.returned, k)
  {
    var j := KeyOf(c, Moved(c, s, step));
    match step
    case MergeRow(w) =>
      MergeRowReturns(c, s, w);
      UnflaggedOne(s.returned, Returned(j, Lookup(s.workers[w].buffers, j), false), k);
    case CountDown(w) =>
      OtherReleased(Given(c, s, w), j, c.batches[BatchOf(c, s, w)].data.blockCount, k);
    case _ =>
  }

  lemma FinishedStep(c: Config, s: State, step: Step, k: Key)
    requires Struct(c, s) && Enabled(c, s, step) && Finished(c, s, k)
    ensures Moved(c, s, step) < |c.batches| && KeyOf(c, Moved(c, s, step)) != k
  {
    var b := Moved(c, s, step);
    assert s.stage[b] != Counted && b !in CountedSet(c, s.stage, k);
    assert b !in BatchesOf(c, k);
  }

  /** Before the release the buffers, after it the packets. */
  predicate Sending(c: Config, s: State, k: Key, fed: seq<seq<Row>>, used: set<nat>) {
    if Flags(s.returned, k) == 0 then Streams(c, s, k, fed) && Owners(s.workers, k, |s.workers|, used)
    else Delivered(c, s, k, fed, used)
  }

  lemma StepSending(c: Config, s: State, step: Step, k: Key, fed: seq<seq<Row>>, used: set<nat>)
    requires Struct(c, s) && Enabled(c, s, step) && KeyInv(c, s, k) && WholeOnly(c, k) && Sending(c, s, k, fed, used)
    ensures Sending(c, Apply(c, s, step), k, Fed(c, s, step, k, fed), Opened(c, s, step, k, used))
  {
    var t := Apply(c, s, step);
    StepKey(c, s, step, k);
    if Flags(s.returned, k) != 0 {
      FinishedStep(c, s, step, k);
      OtherStep(c, s, step, k);
      FlagsGrow(c, s, step, k);
    } else if Flags(t.returned, k) == 0 {
      StepStreams(c, s, step, k, fed);
      StepOwners(c, s, step, k, used);
    } else {
      ReleaseStep(c, s, step, k, fed, used);
    }
  }

  lemma {:induction false} RunSending(c: Config, s: State, steps: seq<Step>, k: Key, fed: seq<seq<Row>>, used: set<nat>)
    requires Struct(c, s) && KeyInv(c, s, k) && WholeOnly(c, k) && Sending(c, s, k, fed, used) && Exec(c, s, steps).At?
    ensures Sending(c, Exec(c, s, steps).state, k, FedBy(c, s, steps, k, fed), OpenedBy(c, s, steps, k, used))
    decreases |steps|
  {
    if steps != [] {
      StepStruct(c, s, steps[0]);
      StepKey(c, s, steps[0], k);
      StepSending(c, s, steps[0], k, fed, used);
      RunSending(c, Apply(c, s, steps[0]), steps[1..], k, Fed(c, s, steps[0], k, fed), Opened(c, s, steps[0], k, used));
    }
  }

  /** Under every schedule, a snippet that meets the release condition has come, once it is released,
      in as many packets as its rows overflowed the buffers they went to and workers served it. */
  lemma PacketCount(c: Config, steps: seq<Step>, k: Key)
    requires WholeOnly(c, k) && Exec(c, Init(c), steps).At? && Flags(Exec(c, Init(c), steps).state.returned, k) != 0
    ensures var s, fed := Exec(c, Init(c), steps).state, FedBy(c, Init(c), steps, k, NoRows(c.workers));
      && Flags(s.returned, k) == 1
      && Unflagged(s.returned, k) + 1
         == AllFlushes(fed, c.bufferSize, |fed|) + |OpenedBy(c, Init(c), steps, k, {})|
  {
    InitStruct(c);
    InitKey(c, k, BlockCount);
    NoFlushes(c.workers, c.bufferSize, c.workers);
    RunKey(c, Init(c), steps, k);
    RunSending(c, Init(c), steps, k, NoRows(c.workers), {});
  }
}
