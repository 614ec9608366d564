/** The projection layer over whole runs: safety under every schedule, completion of every run,
    and the exact condition on the block counts under which both hold. */
module ProjectionRuns {
  import opened RowData
  import opened Sequences
  import opened Projection
  import opened ProjectionSafety

  // ---------------------------------------------------------------- every reachable state

  lemma {:induction false} RunStruct(c: Config, s: State, steps: seq<Step>)
    requires Struct(c, s) && Exec(c, s, steps).At?
    ensures Struct(c, Exec(c, s, steps).state)
    decreases |steps|
  {
    if steps != [] {
      StepStruct(c, s, steps[0]);
      RunStruct(c, Apply(c, s, steps[0]), steps[1..]);
    }
  }

  lemma {:induction false} RunKey(c: Config, s: State, steps: seq<Step>, k: Key)
    requires Struct(c, s) && KeyInv(c, s, k) && WholeOnly(c, k) && Exec(c, s, steps).At?
    ensures Struct(c, Exec(c, s, steps).state) && KeyInv(c, Exec(c, s, steps).state, k)
    decreases |steps|
  {
    if steps != [] {
      StepStruct(c, s, steps[0]);
      StepKey(c, s, steps[0], k);
      RunKey(c, Apply(c, s, steps[0]), steps[1..], k);
    }
  }

  lemma {:induction false} RunBalance(c: Config, s: State, steps: seq<Step>, k: Key, m: Measure)
    requires Struct(c, s) && Balanced(c, s, k, m) && Exec(c, s, steps).At?
    ensures Struct(c, Exec(c, s, steps).state) && Balanced(c, Exec(c, s, steps).state, k, m)
    decreases |steps|
  {
    if steps != [] {
      StepStruct(c, s, steps[0]);
      StepBalance(c, s, steps[0], k, m);
      RunBalance(c, Apply(c, s, steps[0]), steps[1..], k, m);
    }
  }

  /** Conservation needs no condition on the counts: in every reachable state, what was returned
      for k plus what the workers hold for k is what the batches of k have contributed. */
  lemma Conservation(c: Config, steps: seq<Step>, k: Key, m: Measure)
    requires Exec(c, Init(c), steps).At?
    ensures var s := Exec(c, Init(c), steps).state;
      AllSane(c, s.stage) &&
      Sent(s.returned, k, m) + Held(s.workers, k, m) == Owed(c, s.stage, k, |c.batches|, m)
  {
    InitStruct(c);
    InitKey(c, k, m);
    RunBalance(c, Init(c), steps, k, m);
  }

  // ---------------------------------------------------------------- what a finished snippet has returned

  /** The rows handed to the return layer for k, in order. */
  function ReturnedRows(log: seq<Returned>, k: Key): seq<Row> {
    if log == [] then []
    else (if log[0].key == k then log[0].data.rows else []) + ReturnedRows(log[1..], k)
  }

  /** The projected rows of the first n batches that belong to k. */
  function ProjectedRows(c: Config, k: Key, n: nat): seq<Row>
    requires n <= |c.batches|
  {
    if n == 0 then []
    else if KeyOf(c, n - 1) == k then Cat(ProjectedRows(c, k, n - 1), Projected(c, n - 1).rows)
    else ProjectedRows(c, k, n - 1)
  }

  /** The counters of the first n batches that belong to k. */
  function BatchTotal(c: Config, k: Key, n: nat, m: Measure): int
    requires n <= |c.batches|
  {
    if n == 0 then 0
    else BatchTotal(c, k, n - 1, m) + (if KeyOf(c, n - 1) == k then Weight(Projected(c, n - 1), m) else 0)
  }

  lemma {:induction false} CopiesConcat(a: seq<Row>, b: seq<Row>, r: Row)
    ensures Copies(a + b, r) == Copies(a, r) + Copies(b, r)
    decreases |b|
  {
    if b == [] {
      assert a + b == a;
    } else {
      assert (a + b)[..|a + b| - 1] == a + b[..|b| - 1];
      CopiesConcat(a, b[..|b| - 1], r);
    }
  }

  lemma {:induction false} CopiesMultiset(a: seq<Row>, r: Row)
    ensures Copies(a, r) == multiset(a)[r]
    decreases |a|
  {
    if a != [] {
      var p, x := a[..|a| - 1], a[|a| - 1];
      CopiesMultiset(p, r);
      assert a == p + [x];
    }
  }

  lemma SameRows(a: seq<Row>, b: seq<Row>)
    requires forall r: Row :: Copies(a, r) == Copies(b, r)
    ensures multiset(a) == multiset(b)
  {
    forall r: Row ensures multiset(a)[r] == multiset(b)[r] {
      CopiesMultiset(a, r);
      CopiesMultiset(b, r);
      assert Copies(a, r) == Copies(b, r);
    }
  }

  lemma {:induction false} SentIsReturned(log: seq<Returned>, k: Key, r: Row)
    ensures Sent(log, k, CopiesOf(r)) == Copies(ReturnedRows(log, k), r)
    decreases |log|
  {
    if log != [] {
      SentIsReturned(log[1..], k, r);
      CopiesConcat(if log[0].key == k then log[0].data.rows else [], ReturnedRows(log[1..], k), r);
    }
  }

  lemma CopiesCat(a: seq<Row>, b: seq<Row>, r: Row)
    ensures Copies(Cat(a, b), r) == Copies(a, r) + Copies(b, r)
  {
    CatIsConcat(a, b);
    CopiesConcat(a, b, r);
  }

  lemma {:induction false} TotalIsProjected(c: Config, k: Key, n: nat, r: Row)
    requires n <= |c.batches|
    ensures BatchTotal(c, k, n, CopiesOf(r)) == Copies(ProjectedRows(c, k, n), r)
    decreases n
  {
    if n > 0 {
      TotalIsProjected(c, k, n - 1, r);
      CopiesCat(ProjectedRows(c, k, n - 1), Projected(c, n - 1).rows, r);
    }
  }

  lemma {:induction false} OwedWhenCounted(c: Config, stage: seq<Stage>, k: Key, n: nat, m: Measure)
    requires AllSane(c, stage) && n <= |stage| && CountedSet(c, stage, k) == BatchesOf(c, k)
    ensures Owed(c, stage, k, n, m) == BatchTotal(c, k, n, m)
    decreases n
  {
    if n > 0 {
      OwedWhenCounted(c, stage, k, n - 1, m);
      if KeyOf(c, n - 1) == k {
        assert n - 1 in BatchesOf(c, k);
      }
    }
  }

  lemma {:induction false} BlockTotalIsSum(c: Config, k: Key, n: nat)
    requires n <= |c.batches|
    ensures BatchTotal(c, k, n, BlockCount) == SumBlocks(c, BatchesOf(c, k), n)
    decreases n
  {
    if n > 0 {
      BlockTotalIsSum(c, k, n - 1);
    }
  }

  /** Every batch of k is merged and its worker's share of it is out. */
  predicate AllReturned(c: Config, s: State, k: Key) {
    && k !in s.counts
    && (forall w :: 0 <= w < |s.workers| ==> k !in s.workers[w].buffers)
    && multiset(ReturnedRows(s.returned, k)) == multiset(ProjectedRows(c, k, |c.batches|))
    && Sent(s.returned, k, BlockCount) == BatchTotal(c, k, |c.batches|, BlockCount)
    && Sent(s.returned, k, ScannedRows) == BatchTotal(c, k, |c.batches|, ScannedRows)
    && Sent(s.returned, k, FilteredRows) == BatchTotal(c, k, |c.batches|, FilteredRows)
  }

  lemma FinishedTotals(c: Config, s: State, steps: seq<Step>, k: Key, m: Measure)
    requires Exec(c, Init(c), steps) == At(s) && Shape(c, s) && KeyInv(c, s, k) && Finished(c, s, k)
    ensures Sent(s.returned, k, m) == BatchTotal(c, k, |c.batches|, m)
  {
    Conservation(c, steps, k, m);
    OwedWhenCounted(c, s.stage, k, |c.batches|, m);
    HeldNothing(s.workers, k, m);
  }

  /** Main safety theorem: under every schedule of any number of workers, and every arrival
      order, k is released at most once, and it is released exactly when its last batch has been
      counted down; from then on everything of k has been returned and nothing is left. */
  lemma ReleasedExactlyOnce(c: Config, steps: seq<Step>, k: Key)
    requires Exec(c, Init(c), steps).At? && WholeOnly(c, k) && BatchesOf(c, k) != {}
    ensures var s := Exec(c, Init(c), steps).state;
      && Shape(c, s) && Flags(s.returned, k) <= 1
      && (Flags(s.returned, k) == 1 <==> CountedSet(c, s.stage, k) == BatchesOf(c, k))
      && (Flags(s.returned, k) == 1 ==> AllReturned(c, s, k))
  {
    var s := Exec(c, Init(c), steps).state;
    InitStruct(c);
    InitKey(c, k, BlockCount);
    RunKey(c, Init(c), steps, k);
    if Finished(c, s, k) {
      FinishedTotals(c, s, steps, k, BlockCount);
      FinishedTotals(c, s, steps, k, ScannedRows);
      FinishedTotals(c, s, steps, k, FilteredRows);
      forall r: Row ensures Copies(ReturnedRows(s.returned, k), r) == Copies(ProjectedRows(c, k, |c.batches|), r) {
        FinishedTotals(c, s, steps, k, CopiesOf(r));
        SentIsReturned(s.returned, k, r);
        TotalIsProjected(c, k, |c.batches|, r);
      }
      SameRows(ReturnedRows(s.returned, k), ProjectedRows(c, k, |c.batches|));
    }
  }

  // ---------------------------------------------------------------- completion

  /** Steps batch b still needs. */
  function Rank(c: Config, b: nat, st: Stage): int
    requires b < |c.batches|
  {
    var rows := |c.batches[b].data.rows|;
    match st
    case NotSent => rows + 6
    case Queued => rows + 5
    case Popped(_) => rows + 4
    case Registered(_) => rows + 3
    case Merging(_, n) => rows - n + 2
    case Summed(_) => 1
    case Counted => 0
  }

  function Remaining(c: Config, stage: seq<Stage>, n: nat): int
    requires n <= |stage| == |c.batches|
  {
    if n == 0 then 0 else Remaining(c, stage, n - 1) + Rank(c, n - 1, stage[n - 1])
  }

  /** The length of every complete run. */
  function Work(c: Config): int {
    Remaining(c, Init(c).stage, |c.batches|)
  }

  lemma {:induction false} RemainingUpdate(c: Config, stage: seq<Stage>, b: nat, st: Stage, n: nat)
    requires n <= |stage| == |c.batches| && b < |stage|
    ensures Remaining(c, stage[b := st], n) ==
      Remaining(c, stage, n) + (if b < n then Rank(c, b, st) - Rank(c, b, stage[b]) else 0)
    decreases n
  {
    if n > 0 {
      RemainingUpdate(c, stage, b, st, n - 1);
    }
  }

  /** Every step moves one batch by one stage. */
  lemma StepRank(c: Config, s: State, step: Step)
    requires Struct(c, s) && Enabled(c, s, step)
    ensures var b, t := Moved(c, s, step), Apply(c, s, step);
      && b < |c.batches| && |t.stage| == |c.batches| && t.stage == s.stage[b := t.stage[b]]
      && Rank(c, b, t.stage[b]) == Rank(c, b, s.stage[b]) - 1
  {
  }

  lemma StepRemaining(c: Config, s: State, step: Step)
    requires Struct(c, s) && Enabled(c, s, step)
    ensures var t := Apply(c, s, step);
      |t.stage| == |c.batches| && Remaining(c, t.stage, |c.batches|) == Remaining(c, s.stage, |c.batches|) - 1
  {
    var b, stage := Moved(c, s, step), Apply(c, s, step).stage;
    StepRank(c, s, step);
    RemainingUpdate(c, s.stage, b, stage[b], |c.batches|);
  }

  lemma {:induction false} RunRemaining(c: Config, s: State, steps: seq<Step>)
    requires Struct(c, s) && Exec(c, s, steps).At?
    ensures var t := Exec(c, s, steps).state;
      Struct(c, t) && Remaining(c, t.stage, |c.batches|) == Remaining(c, s.stage, |c.batches|) - |steps|
    decreases |steps|
  {
    if steps != [] {
      StepStruct(c, s, steps[0]);
      StepRemaining(c, s, steps[0]);
      RunRemaining(c, Apply(c, s, steps[0]), steps[1..]);
    }
  }

  lemma {:induction false} RemainingSign(c: Config, stage: seq<Stage>, n: nat)
    requires AllSane(c, stage) && n <= |stage|
    ensures Remaining(c, stage, n) >= 0
    ensures Remaining(c, stage, n) == 0 <==> forall b :: 0 <= b < n ==> stage[b] == Counted
    decreases n
  {
    if n > 0 {
      RemainingSign(c, stage, n - 1);
    }
  }

  /** No deadlock: while some batch is not counted down, some step is possible. */
  lemma Progress(c: Config, s: State) returns (step: Step)
    requires Struct(c, s) && c.workers > 0 && exists b :: 0 <= b < |s.stage| && s.stage[b] != Counted
    ensures Enabled(c, s, step)
  {
    if b :| 0 <= b < |s.stage| && Active(s.stage[b]) {
      var w := s.stage[b].w;
      match s.stage[b]
      case Popped(_) => step := MakeBlockCountMap(w);
      case Registered(_) => step := CheckIdBuffer(w);
      case Merging(_, n) => step := if n < |c.batches[b].data.rows| then MergeRow(w) else AddCounts(w);
      case Summed(_) => step := CountDown(w);
    } else {
      assert s.workers[0].job == NoJob;
      if s.queue != [] {
        step := Pop(0);
      } else {
        var b :| 0 <= b < |s.stage| && s.stage[b] != Counted;
        step := Arrive(b);
      }
    }
  }

  /** Completion: every run stops after exactly Work(c) steps, it can always be continued until
      then, and when it stops every batch is counted down. */
  lemma EveryRunCompletes(c: Config, steps: seq<Step>)
    requires c.workers > 0 && Exec(c, Init(c), steps).At?
    ensures var s := Exec(c, Init(c), steps).state;
      && |steps| <= Work(c)
      && Shape(c, s)
      && (|steps| < Work(c) ==> exists step :: Enabled(c, s, step))
      && (|steps| == Work(c) ==> forall k :: CountedSet(c, s.stage, k) == BatchesOf(c, k))
  {
    var s := Exec(c, Init(c), steps).state;
    InitStruct(c);
    RunRemaining(c, Init(c), steps);
    RemainingSign(c, s.stage, |c.batches|);
    if |steps| < Work(c) {
      var step := Progress(c, s);
    }
  }

  /** What the release says about the flags and the rows alone. */
  lemma ReleasedRows(c: Config, steps: seq<Step>, k: Key)
    requires Exec(c, Init(c), steps).At? && WholeOnly(c, k) && BatchesOf(c, k) != {}
    ensures var s := Exec(c, Init(c), steps).state;
      && Shape(c, s) && Flags(s.returned, k) == (if CountedSet(c, s.stage, k) == BatchesOf(c, k) then 1 else 0)
      && (Flags(s.returned, k) == 1 ==>
          multiset(ReturnedRows(s.returned, k)) == multiset(ProjectedRows(c, k, |c.batches|)))
  {
    ReleasedExactlyOnce(c, steps, k);
    FlagsSign(Exec(c, Init(c), steps).state.returned, k);
  }

  lemma {:induction false} FlagsSign(log: seq<Returned>, k: Key)
    ensures Flags(log, k) >= 0
    decreases |log|
  {
    if log != [] {
      FlagsSign(log[1..], k);
    }
  }

  // ---------------------------------------------------------------- buffers stay in bounds

  predicate Bounded(c: Config, s: State) {
    && (forall w, k :: 0 <= w < |s.workers| && k in s.workers[w].buffers ==>
        FitsBuffer(s.workers[w].buffers[k], c.bufferSize))
    && (forall i :: 0 <= i < |s.returned| ==> FitsBuffer(s.returned[i].data, c.bufferSize))
  }

  lemma {:induction false} ReleaseFits(c: Config, ws: seq<Worker>, k: Key, flag: bool, i: nat)
    requires forall w :: 0 <= w < |ws| && k in ws[w].buffers ==> FitsBuffer(ws[w].buffers[k], c.bufferSize)
    requires i < |ReleaseLog(ws, k, flag)|
    ensures FitsBuffer(ReleaseLog(ws, k, flag)[i].data, c.bufferSize)
    decreases |ws|
  {
    if k in ws[0].buffers {
      if i > 0 {
        ReleaseFits(c, ws[1..], k, false, i - 1);
      }
    } else {
      ReleaseFits(c, ws[1..], k, flag, i);
    }
  }

  lemma MergeFits(c: Config, s: State, w: nat, k: Key, r: Row)
    requires w < |s.workers| && Bounded(c, s)
    ensures Bounded(c, MergeRowInto(c, s, w, k, r))
  {
    var d := Lookup(s.workers[w].buffers, k);
    FlattenSnoc(d.rows, r);
    FlattenSnoc([], r);
    assert [] + [r] == [r];
  }

  lemma StepBounded(c: Config, s: State, step: Step)
    requires Enabled(c, s, step) && Bounded(c, s)
    ensures Bounded(c, Apply(c, s, step))
  {
    match step
    case MergeRow(w) =>
      var b := BatchOf(c, s, w);
      MergeFits(c, s, w, KeyOf(c, b), ProjectedRow(c, b, s.stage[b].next));
    case CountDown(w) =>
      var g := Given(c, s, w);
      var k := KeyOf(c, BatchOf(c, s, w));
      forall i | 0 <= i < |ReleaseLog(g.workers, k, true)|
        ensures FitsBuffer(ReleaseLog(g.workers, k, true)[i].data, c.bufferSize)
      {
        ReleaseFits(c, g.workers, k, true, i);
      }
    case _ =>
  }

  lemma {:induction false} RunBounded(c: Config, s: State, steps: seq<Step>)
    requires Bounded(c, s) && Exec(c, s, steps).At?
    ensures Bounded(c, Exec(c, s, steps).state)
    decreases |steps|
  {
    if steps != [] {
      StepBounded(c, s, steps[0]);
      RunBounded(c, Apply(c, s, steps[0]), steps[1..]);
    }
  }

  /** Under every schedule no held or returned buffer is longer than BUFFER_SIZE, except one that
      holds nothing but one row longer than that. */
  lemma BuffersWithinSize(c: Config, steps: seq<Step>)
    requires Exec(c, Init(c), steps).At?
    ensures Bounded(c, Exec(c, Init(c), steps).state)
  {
    RunBounded(c, Init(c), steps);
  }
}
