/** What every schedule of the projection layer keeps, and what holds when a snippet is done. */
module ProjectionSafety {
  import opened RowData
  import opened Projection

  // ---------------------------------------------------------------- what is conserved

  /** The quantities no schedule may lose or invent: the copies of any one row, and the three
      counters. */
  datatype Measure = CopiesOf(row: Row) | BlockCount | ScannedRows | FilteredRows

  function Copies(rows: seq<Row>, r: Row): nat {
    if rows == [] then 0 else Copies(rows[..|rows| - 1], r) + (if rows[|rows| - 1] == r then 1 else 0)
  }

  function Weight(d: Contents, m: Measure): int {
    match m
    case CopiesOf(r) => Copies(d.rows, r)
    case BlockCount => d.blockCount
    case ScannedRows => d.scannedRows
    case FilteredRows => d.filteredRows
  }

  function Buffered(x: Worker, k: Key, m: Measure): int {
    if k in x.buffers then Weight(x.buffers[k], m) else 0
  }

  /** Everything the workers still hold for k. */
  function Held(ws: seq<Worker>, k: Key, m: Measure): int {
    if ws == [] then 0 else Buffered(ws[0], k, m) + Held(ws[1..], k, m)
  }

  function Entry(e: Returned, k: Key, m: Measure): int {
    if e.key == k then Weight(e.data, m) else 0
  }

  /** Everything handed to the return layer for k. */
  function Sent(log: seq<Returned>, k: Key, m: Measure): int {
    if log == [] then 0 else Entry(log[0], k, m) + Sent(log[1..], k, m)
  }

  function Flag(e: Returned, k: Key): int {
    if e.key == k && e.last then 1 else 0
  }

  /** How many times the release loop ran for k. */
  function Flags(log: seq<Returned>, k: Key): int {
    if log == [] then 0 else Flag(log[0], k) + Flags(log[1..], k)
  }

  /** The first n rows of batch b, projected. */
  function ProjectedPrefix(c: Config, b: nat, n: nat): seq<Row>
    requires b < |c.batches| && n <= |c.batches[b].data.rows|
  {
    seq(n, i requires 0 <= i < n => ProjectedRow(c, b, i))
  }

  predicate Sane(c: Config, b: nat, st: Stage)
    requires b < |c.batches|
  {
    st.Merging? ==> st.next <= |c.batches[b].data.rows|
  }

  /** Batch b once projected. */
  function Projected(c: Config, b: nat): Contents
    requires b < |c.batches|
  {
    var d := c.batches[b].data;
    d.(rows := ProjectedPrefix(c, b, |d.rows|))
  }

  /** What batch b has put into buffers so far. */
  function Share(c: Config, b: nat, st: Stage, m: Measure): int
    requires b < |c.batches| && Sane(c, b, st)
  {
    match st
    case Merging(_, n) => Weight(EMPTY.(rows := ProjectedPrefix(c, b, n)), m)
    case Summed(_) => Weight(Projected(c, b), m)
    case Counted => Weight(Projected(c, b), m)
    case _ => 0
  }

  predicate AllSane(c: Config, stage: seq<Stage>) {
    |stage| == |c.batches| && forall b :: 0 <= b < |stage| ==> Sane(c, b, stage[b])
  }

  /** What the first n batches have put into buffers for k so far. */
  function Owed(c: Config, stage: seq<Stage>, k: Key, n: nat, m: Measure): int
    requires AllSane(c, stage) && n <= |stage|
  {
    if n == 0 then 0
    else Owed(c, stage, k, n - 1, m) + (if KeyOf(c, n - 1) == k then Share(c, n - 1, stage[n - 1], m) else 0)
  }

  lemma {:induction false} HeldUpdate(ws: seq<Worker>, i: nat, x: Worker, k: Key, m: Measure)
    requires i < |ws|
    ensures Held(ws[i := x], k, m) == Held(ws, k, m) - Buffered(ws[i], k, m) + Buffered(x, k, m)
    decreases |ws|
  {
    var us := ws[i := x];
    if i == 0 {
      assert us[1..] == ws[1..];
    } else {
      assert us[1..] == ws[1..][i - 1 := x];
      HeldUpdate(ws[1..], i - 1, x, k, m);
    }
  }

  /** Only batch b moved: if it is a batch of k in range the sum changes by its own share. */
  lemma {:induction false} OwedUpdate(c: Config, stage: seq<Stage>, b: nat, st: Stage, k: Key, n: nat, m: Measure)
    requires AllSane(c, stage) && b < |stage| && n <= |stage| && Sane(c, b, st)
    ensures AllSane(c, stage[b := st])
    ensures Owed(c, stage[b := st], k, n, m) == Owed(c, stage, k, n, m) +
      (if b < n && KeyOf(c, b) == k then Share(c, b, st, m) - Share(c, b, stage[b], m) else 0)
    decreases n
  {
    if n > 0 {
      OwedUpdate(c, stage, b, st, k, n - 1, m);
    }
  }

  lemma {:induction false} SentConcat(a: seq<Returned>, b: seq<Returned>, k: Key, m: Measure)
    ensures Sent(a + b, k, m) == Sent(a, k, m) + Sent(b, k, m)
    decreases |a|
  {
    if a == [] {
      assert a + b == b;
    } else {
      assert (a + b)[1..] == a[1..] + b;
      SentConcat(a[1..], b, k, m);
    }
  }

  lemma {:induction false} FlagsConcat(a: seq<Returned>, b: seq<Returned>, k: Key)
    ensures Flags(a + b, k) == Flags(a, k) + Flags(b, k)
    decreases |a|
  {
    if a == [] {
      assert a + b == b;
    } else {
      assert (a + b)[1..] == a[1..] + b;
      FlagsConcat(a[1..], b, k);
    }
  }

  /** The release loop, one worker further. */
  lemma {:induction false} ReleaseLogSnoc(ws: seq<Worker>, x: Worker, k: Key, flag: bool)
    ensures ReleaseLog(ws + [x], k, flag) == ReleaseLog(ws, k, flag) +
      (if k in x.buffers then [Returned(k, x.buffers[k], flag && ReleaseLog(ws, k, flag) == [])] else [])
    decreases |ws|
  {
    if ws == [] {
      assert (ws + [x])[1..] == [];
      assert ReleaseLog([], k, flag) == [] == ReleaseLog([], k, false);
    } else {
      assert (ws + [x])[0] == ws[0] && (ws + [x])[1..] == ws[1..] + [x];
      ReleaseLogSnoc(ws[1..], x, k, if k in ws[0].buffers then false else flag);
    }
  }

  predicate SomeHold(ws: seq<Worker>, k: Key) {
    exists w :: 0 <= w < |ws| && k in ws[w].buffers
  }

  /** The release loop returns exactly what was held. */
  lemma {:induction false} ReleaseSent(ws: seq<Worker>, k: Key, flag: bool, m: Measure)
    ensures Sent(ReleaseLog(ws, k, flag), k, m) == Held(ws, k, m)
    decreases |ws|
  {
    if ws != [] {
      if k in ws[0].buffers {
        var tail := ReleaseLog(ws[1..], k, false);
        assert ReleaseLog(ws, k, flag)[1..] == tail;
        ReleaseSent(ws[1..], k, false, m);
      } else {
        ReleaseSent(ws[1..], k, flag, m);
      }
    }
  }

  /** The release loop raises the flag once if any worker holds the key. */
  lemma {:induction false} ReleaseFlags(ws: seq<Worker>, k: Key, flag: bool)
    ensures Flags(ReleaseLog(ws, k, flag), k) == if flag && SomeHold(ws, k) then 1 else 0
    decreases |ws|
  {
    if ws != [] {
      if k in ws[0].buffers {
        var tail := ReleaseLog(ws[1..], k, false);
        assert ReleaseLog(ws, k, flag)[1..] == tail;
        ReleaseFlags(ws[1..], k, false);
      } else {
        ReleaseFlags(ws[1..], k, flag);
        if w :| 0 <= w < |ws| && k in ws[w].buffers {
          assert k in ws[1..][w - 1].buffers;
        }
      }
    }
  }

  lemma {:induction false} ReleaseKeys(ws: seq<Worker>, k: Key, flag: bool, i: nat)
    requires i < |ReleaseLog(ws, k, flag)|
    ensures ReleaseLog(ws, k, flag)[i].key == k
    decreases |ws|
  {
    if k in ws[0].buffers {
      if i > 0 {
        ReleaseKeys(ws[1..], k, false, i - 1);
      }
    } else {
      ReleaseKeys(ws[1..], k, flag, i);
    }
  }

  /** Entries of other snippets say nothing about this one. */
  lemma {:induction false} OtherKeys(log: seq<Returned>, k: Key, m: Measure)
    requires forall i :: 0 <= i < |log| ==> log[i].key != k
    ensures Sent(log, k, m) == 0 && Flags(log, k) == 0
    decreases |log|
  {
    if log != [] {
      OtherKeys(log[1..], k, m);
    }
  }

  /** Held only looks at the key's own buffers. */
  lemma {:induction false} HeldFrame(ws: seq<Worker>, us: seq<Worker>, k: Key, m: Measure)
    requires |ws| == |us| && forall i :: 0 <= i < |ws| ==> Buffered(ws[i], k, m) == Buffered(us[i], k, m)
    ensures Held(ws, k, m) == Held(us, k, m)
    decreases |ws|
  {
    if ws != [] {
      HeldFrame(ws[1..], us[1..], k, m);
    }
  }

  lemma {:induction false} HeldNothing(ws: seq<Worker>, k: Key, m: Measure)
    requires forall i :: 0 <= i < |ws| ==> k !in ws[i].buffers
    ensures Held(ws, k, m) == 0
    decreases |ws|
  {
    if ws != [] {
      HeldNothing(ws[1..], k, m);
    }
  }

  // ---------------------------------------------------------------- the countdown

  function BatchesOf(c: Config, k: Key): set<nat> {
    set b: nat | b < |c.batches| && c.batches[b].key == k
  }

  /** The block counts of the batches in S, among the first n. */
  function SumBlocks(c: Config, S: set<nat>, n: nat): int
    requires n <= |c.batches|
  {
    if n == 0 then 0
    else SumBlocks(c, S, n - 1) + (if n - 1 in S then c.batches[n - 1].data.blockCount else 0)
  }

  function Blocks(c: Config, S: set<nat>): int {
    SumBlocks(c, S, |c.batches|)
  }

  function CountedSet(c: Config, stage: seq<Stage>, k: Key): set<nat>
    requires |stage| == |c.batches|
  {
    set b: nat | b < |c.batches| && c.batches[b].key == k && stage[b] == Counted
  }

  /** The counts add up to csd_block_count, and no part of the batches does. */
  ghost predicate WholeOnly(c: Config, k: Key) {
    && Blocks(c, BatchesOf(c, k)) == c.total(k)
    && forall S: set<nat> | S < BatchesOf(c, k) && S != {} :: Blocks(c, S) != c.total(k)
  }

  lemma {:induction false} SumBlocksAdd(c: Config, S: set<nat>, b: nat, n: nat)
    requires n <= |c.batches| && b !in S
    ensures SumBlocks(c, S + {b}, n) == SumBlocks(c, S, n) + (if b < n then c.batches[b].data.blockCount else 0)
    decreases n
  {
    if n > 0 {
      SumBlocksAdd(c, S, b, n - 1);
    }
  }

  lemma {:induction false} SumBlocksNone(c: Config, n: nat)
    requires n <= |c.batches|
    ensures SumBlocks(c, {}, n) == 0
    decreases n
  {
    if n > 0 {
      SumBlocksNone(c, n - 1);
    }
  }

  // ---------------------------------------------------------------- the invariant

  predicate Active(st: Stage) {
    st.Popped? || st.Registered? || st.Merging? || st.Summed?
  }

  predicate QueueOk(c: Config, s: State) {
    && (forall i :: 0 <= i < |s.queue| ==> s.queue[i] < |s.stage| && s.stage[s.queue[i]] == Queued)
    && (forall i, j :: 0 <= i < j < |s.queue| ==> s.queue[i] != s.queue[j])
    && (forall b :: 0 <= b < |s.stage| && s.stage[b] == Queued ==> b in s.queue)
  }

  /** A batch is inside at most one worker, and that worker is at work on it. */
  predicate JobsOk(c: Config, s: State) {
    && (forall w :: 0 <= w < |s.workers| && s.workers[w].job.Job? ==>
        var b := s.workers[w].job.batch;
        b < |s.stage| && Active(s.stage[b]) && s.stage[b].w == w)
    && (forall b :: 0 <= b < |s.stage| && Active(s.stage[b]) ==>
        s.stage[b].w < |s.workers| && s.workers[s.stage[b].w].job == Job(b))
  }

  predicate Struct(c: Config, s: State) {
    Shape(c, s) && AllSane(c, s.stage) && QueueOk(c, s) && JobsOk(c, s)
  }

  /** The countdown of k is what is still to come, exists exactly while k is under way, and
      covers every worker that has registered. */
  predicate CountsOk(c: Config, s: State, k: Key)
    requires Shape(c, s)
  {
    var counted := CountedSet(c, s.stage, k);
    && (k in s.counts ==> s.counts[k] == c.total(k) - Blocks(c, counted) && counted != BatchesOf(c, k))
    && (counted != {} && counted != BatchesOf(c, k) ==> k in s.counts)
    && (forall b | 0 <= b < |s.stage| && KeyOf(c, b) == k
                   && (s.stage[b].Registered? || s.stage[b].Merging? || s.stage[b].Summed?) :: k in s.counts)
  }

  /** Buffers of k exist only while k is counted down; a merging worker has one. */
  predicate BuffersOk(c: Config, s: State, k: Key)
    requires Shape(c, s)
  {
    && (forall w :: 0 <= w < |s.workers| && k in s.workers[w].buffers ==> k in s.counts)
    && (forall b :: 0 <= b < |s.stage| && KeyOf(c, b) == k && (s.stage[b].Merging? || s.stage[b].Summed?) ==>
        s.stage[b].w < |s.workers| && k in s.workers[s.stage[b].w].buffers)
  }

  predicate Finished(c: Config, s: State, k: Key)
    requires Shape(c, s)
  {
    BatchesOf(c, k) != {} && CountedSet(c, s.stage, k) == BatchesOf(c, k)
  }

  predicate FlagsOk(c: Config, s: State, k: Key)
    requires Shape(c, s)
  {
    Flags(s.returned, k) == if Finished(c, s, k) then 1 else 0
  }

  predicate Balanced(c: Config, s: State, k: Key, m: Measure)
    requires AllSane(c, s.stage)
  {
    Sent(s.returned, k, m) + Held(s.workers, k, m) == Owed(c, s.stage, k, |s.stage|, m)
  }

  predicate KeyInv(c: Config, s: State, k: Key)
    requires Shape(c, s)
  {
    CountsOk(c, s, k) && BuffersOk(c, s, k) && FlagsOk(c, s, k)
  }

  lemma InitStruct(c: Config)
    ensures Struct(c, Init(c))
  {
  }

  lemma InitKey(c: Config, k: Key, m: Measure)
    ensures KeyInv(c, Init(c), k) && Balanced(c, Init(c), k, m)
  {
    var s := Init(c);
    assert CountedSet(c, s.stage, k) == {};
    HeldNothing(s.workers, k, m);
    InitOwed(c, k, |c.batches|, m);
  }

  lemma {:induction false} InitOwed(c: Config, k: Key, n: nat, m: Measure)
    requires n <= |c.batches|
    ensures Owed(c, Init(c).stage, k, n, m) == 0
    decreases n
  {
    if n > 0 {
      InitOwed(c, k, n - 1, m);
    }
  }

  // ---------------------------------------------------------------- every step keeps it

  lemma ArriveStruct(c: Config, s: State, b: nat)
    requires Struct(c, s) && Enabled(c, s, Arrive(b))
    ensures Struct(c, Apply(c, s, Arrive(b)))
  {
  }

  lemma PopStruct(c: Config, s: State, w: nat)
    requires Struct(c, s) && Enabled(c, s, Pop(w))
    ensures Struct(c, Apply(c, s, Pop(w)))
  {
    var t := Apply(c, s, Pop(w));
    assert forall i | 0 <= i < |t.queue| :: t.queue[i] == s.queue[i + 1];
    assert QueueOk(c, t) by {
      forall b | 0 <= b < |t.stage| && t.stage[b] == Queued ensures b in t.queue {
        assert b in s.queue;
      }
    }
  }

  /** A worker moves its batch on, or (st == Counted) gives it up. */
  lemma WorkStruct(c: Config, s: State, t: State, b: nat, st: Stage)
    requires Struct(c, s) && b < |s.stage| && Active(s.stage[b]) && Sane(c, b, st)
    requires (Active(st) && st.w == s.stage[b].w) || st == Counted
    requires t.stage == s.stage[b := st] && t.queue == s.queue && |t.workers| == |s.workers|
    requires forall w :: 0 <= w < |s.workers| ==>
      t.workers[w].job == if w == s.stage[b].w && st == Counted then NoJob else s.workers[w].job
    ensures Struct(c, t)
  {
    assert JobsOk(c, t) by {
      forall x | 0 <= x < |t.stage| && Active(t.stage[x])
        ensures t.stage[x].w < |t.workers| && t.workers[t.stage[x].w].job == Job(x)
      {
        assert Active(s.stage[x]);
      }
    }
  }

  lemma StepStruct(c: Config, s: State, step: Step)
    requires Struct(c, s) && Enabled(c, s, step)
    ensures Struct(c, Apply(c, s, step))
  {
    var t := Apply(c, s, step);
    match step
    case Arrive(b) => ArriveStruct(c, s, b);
    case Pop(w) => PopStruct(c, s, w);
    case _ => WorkStruct(c, s, t, BatchOf(c, s, step.w), t.stage[BatchOf(c, s, step.w)]);
  }

  lemma CountedMove(c: Config, stage: seq<Stage>, b: nat, st: Stage, k: Key)
    requires |stage| == |c.batches| && b < |stage| && stage[b] != Counted
    ensures CountedSet(c, stage[b := st], k) ==
      CountedSet(c, stage, k) + (if st == Counted && KeyOf(c, b) == k then {b} else {})
  {
  }

  predicate Registers(st: Stage) {
    st.Registered? || st.Merging? || st.Summed?
  }

  predicate Keeps(st: Stage) {
    st.Merging? || st.Summed?
  }

  /** What a move of batch b to st may do to k's countdown and to which buffers of k exist. */
  predicate MoveOk(c: Config, s: State, t: State, b: nat, st: Stage, k: Key)
    requires Shape(c, s) && Shape(c, t) && b < |c.batches|
  {
    && t.stage == s.stage[b := st] && s.stage[b] != Counted && st != Counted
    && (KeyOf(c, b) == k && Registers(st) && !Registers(s.stage[b]) ==> k in t.counts)
    && (KeyOf(c, b) == k && Keeps(st) ==>
        Registers(s.stage[b]) && st.w < |t.workers| && k in t.workers[st.w].buffers)
    && (k in s.counts ==> k in t.counts && t.counts[k] == s.counts[k])
    && (k in t.counts && k !in s.counts ==> KeyOf(c, b) == k && t.counts[k] == c.total(k))
    && (forall w :: 0 <= w < |s.workers| && k in s.workers[w].buffers ==> k in t.workers[w].buffers)
    && (forall w :: 0 <= w < |s.workers| && k in t.workers[w].buffers ==>
        k in s.workers[w].buffers || (KeyOf(c, b) == k && Keeps(st)))
    && Flags(t.returned, k) == Flags(s.returned, k)
  }

  lemma MoveKey(c: Config, s: State, t: State, b: nat, st: Stage, k: Key)
    requires Struct(c, s) && KeyInv(c, s, k) && Shape(c, t) && b < |c.batches| && MoveOk(c, s, t, b, st, k)
    ensures KeyInv(c, t, k)
  {
    CountedMove(c, s.stage, b, st, k);
    assert CountedSet(c, t.stage, k) == CountedSet(c, s.stage, k);
    assert b !in CountedSet(c, s.stage, k);
    assert KeyOf(c, b) == k ==> b in BatchesOf(c, k);
    SumBlocksNone(c, |c.batches|);
  }

  /** The batch a step works on. */
  function Moved(c: Config, s: State, step: Step): nat
    requires Enabled(c, s, step)
  {
    if step.Arrive? then step.b else if step.Pop? then s.queue[0] else BatchOf(c, s, step.w)
  }

  /** Every step but the countdown. */
  lemma WorkMove(c: Config, s: State, step: Step, k: Key)
    requires Struct(c, s) && Enabled(c, s, step) && !step.CountDown?
    ensures var b, t := Moved(c, s, step), Apply(c, s, step);
      Shape(c, t) && MoveOk(c, s, t, b, t.stage[b], k)
  {
    if step.MergeRow? {
      MergeMove(c, s, step.w, k);
    }
  }

  lemma MergeMove(c: Config, s: State, w: nat, k: Key)
    requires Struct(c, s) && Enabled(c, s, MergeRow(w))
    ensures var b, t := BatchOf(c, s, w), Apply(c, s, MergeRow(w));
      Shape(c, t) && MoveOk(c, s, t, b, t.stage[b], k)
  {
    var t := Apply(c, s, MergeRow(w));
    FlagsConcat(s.returned, t.returned[|s.returned|..], k);
    assert t.returned == s.returned + t.returned[|s.returned|..];
  }

  lemma WorkKey(c: Config, s: State, step: Step, k: Key)
    requires Struct(c, s) && Enabled(c, s, step) && KeyInv(c, s, k) && !step.CountDown?
    ensures Shape(c, Apply(c, s, step)) && KeyInv(c, Apply(c, s, step), k)
  {
    var t := Apply(c, s, step);
    var b := Moved(c, s, step);
    WorkMove(c, s, step, k);
    MoveKey(c, s, t, b, t.stage[b], k);
  }

  /** The state just before the countdown looks at the counter: batch b is merged and w is free. */
  function Given(c: Config, s: State, w: nat): State
    requires Holds(c, s, w)
  {
    s.(stage := s.stage[BatchOf(c, s, w) := Counted], workers := s.workers[w := s.workers[w].(job := NoJob)])
  }

  /** A release of another snippet leaves k alone. */
  lemma ReleaseElsewhere(s: State, j: Key, k: Key, m: Measure)
    requires j != k
    ensures var t := Release(s, j);
      && Sent(t.returned, k, m) == Sent(s.returned, k, m)
      && Flags(t.returned, k) == Flags(s.returned, k)
      && Held(t.workers, k, m) == Held(s.workers, k, m)
  {
    var log := ReleaseLog(s.workers, j, true);
    forall i | 0 <= i < |log| ensures log[i].key != k {
      ReleaseKeys(s.workers, j, true, i);
    }
    OtherKeys(log, k, m);
    SentConcat(s.returned, log, k, m);
    FlagsConcat(s.returned, log, k);
    HeldFrame(DropKey(s.workers, j), s.workers, k, m);
  }

  lemma ReleaseHere(s: State, k: Key, m: Measure)
    ensures var t := Release(s, k);
      && Sent(t.returned, k, m) == Sent(s.returned, k, m) + Held(s.workers, k, m)
      && Held(t.workers, k, m) == 0
      && Flags(t.returned, k) == Flags(s.returned, k) + (if SomeHold(s.workers, k) then 1 else 0)
  {
    var log := ReleaseLog(s.workers, k, true);
    ReleaseSent(s.workers, k, true, m);
    ReleaseFlags(s.workers, k, true);
    SentConcat(s.returned, log, k, m);
    FlagsConcat(s.returned, log, k);
    HeldNothing(DropKey(s.workers, k), k, m);
  }

  /** What one countdown does to its own snippet, which is being counted and is held by w. */
  lemma CountDownEffect(c: Config, s: State, w: nat)
    requires Enabled(c, s, CountDown(w))
    requires KeyOf(c, BatchOf(c, s, w)) in s.counts && KeyOf(c, BatchOf(c, s, w)) in s.workers[w].buffers
    ensures var b, t := BatchOf(c, s, w), Apply(c, s, CountDown(w));
      var k := KeyOf(c, b);
      var left := s.counts[k] - c.batches[b].data.blockCount;
      && t.stage == s.stage[b := Counted] && |t.workers| == |s.workers|
      && Flags(t.returned, k) == Flags(s.returned, k) + (if left == 0 then 1 else 0)
      && (left == 0 ==> k !in t.counts && forall x :: 0 <= x < |t.workers| ==> k !in t.workers[x].buffers)
      && (left != 0 ==> k in t.counts && t.counts[k] == left)
      && (left != 0 ==> forall x :: 0 <= x < |t.workers| ==> t.workers[x].buffers == s.workers[x].buffers)
  {
    var g := Given(c, s, w);
    assert KeyOf(c, BatchOf(c, s, w)) in g.workers[w].buffers;
    ReleaseHere(g, KeyOf(c, BatchOf(c, s, w)), BlockCount);
  }

  /** The countdown reaches zero exactly when the last batch of k is merged, and only then is k
      released. */
  lemma CountDownOwnKey(c: Config, s: State, w: nat)
    requires Struct(c, s) && Enabled(c, s, CountDown(w))
    requires KeyInv(c, s, KeyOf(c, BatchOf(c, s, w))) && WholeOnly(c, KeyOf(c, BatchOf(c, s, w)))
    ensures var t := Apply(c, s, CountDown(w));
      Shape(c, t) && KeyInv(c, t, KeyOf(c, BatchOf(c, s, w)))
  {
    var b := BatchOf(c, s, w);
    var k := KeyOf(c, b);
    CountDownEffect(c, s, w);
    CountedMove(c, s.stage, b, Counted, k);
    SumBlocksAdd(c, CountedSet(c, s.stage, k), b, |c.batches|);
    CountDownKeepsKey(c, s, Apply(c, s, CountDown(w)), b, k);
  }

  lemma CountDownKeepsKey(c: Config, s: State, t: State, b: nat, k: Key)
    requires Shape(c, s) && Shape(c, t) && KeyInv(c, s, k) && WholeOnly(c, k)
    requires b < |c.batches| && KeyOf(c, b) == k && k in s.counts && t.stage == s.stage[b := Counted]
    requires CountedSet(c, t.stage, k) == CountedSet(c, s.stage, k) + {b}
    requires Blocks(c, CountedSet(c, t.stage, k)) == Blocks(c, CountedSet(c, s.stage, k)) + c.batches[b].data.blockCount
    requires var left := s.counts[k] - c.batches[b].data.blockCount;
      && Flags(t.returned, k) == Flags(s.returned, k) + (if left == 0 then 1 else 0)
      && (left == 0 ==> k !in t.counts && forall x :: 0 <= x < |t.workers| ==> k !in t.workers[x].buffers)
      && (left != 0 ==> k in t.counts && t.counts[k] == left)
      && (left != 0 ==> forall x :: 0 <= x < |t.workers| ==> t.workers[x].buffers == s.workers[x].buffers)
    ensures KeyInv(c, t, k)
  {
    var after := CountedSet(c, t.stage, k);
    assert after <= BatchesOf(c, k) && b in after;
    if after == BatchesOf(c, k) {
      assert forall x | 0 <= x < |t.stage| && KeyOf(c, x) == k :: x in after;
    } else {
      assert after < BatchesOf(c, k);
    }
  }

  /** Counting down one snippet leaves every other one alone. */
  lemma CountDownFrame(s: State, j: Key, blocks: int, k: Key, m: Measure)
    requires j != k
    ensures var t := CountDownKey(s, j, blocks);
      && t.stage == s.stage && |t.workers| == |s.workers|
      && (k in t.counts <==> k in s.counts) && (k in s.counts ==> t.counts[k] == s.counts[k])
      && (forall x | 0 <= x < |s.workers| :: k in t.workers[x].buffers <==> k in s.workers[x].buffers)
      && Flags(t.returned, k) == Flags(s.returned, k)
      && Sent(t.returned, k, m) == Sent(s.returned, k, m)
      && Held(t.workers, k, m) == Held(s.workers, k, m)
  {
    ReleaseElsewhere(s, j, k, m);
  }

  lemma FrameKey(c: Config, s: State, t: State, b: nat, k: Key)
    requires Shape(c, s) && Shape(c, t) && KeyInv(c, s, k) && b < |c.batches| && KeyOf(c, b) != k
    requires t.stage == s.stage[b := Counted]
    requires (k in t.counts <==> k in s.counts) && (k in s.counts ==> t.counts[k] == s.counts[k])
    requires forall x | 0 <= x < |s.workers| :: k in t.workers[x].buffers <==> k in s.workers[x].buffers
    requires Flags(t.returned, k) == Flags(s.returned, k)
    ensures KeyInv(c, t, k)
  {
    assert CountedSet(c, t.stage, k) == CountedSet(c, s.stage, k);
  }

  lemma CountDownOtherKey(c: Config, s: State, w: nat, k: Key)
    requires Struct(c, s) && Enabled(c, s, CountDown(w)) && KeyInv(c, s, k) && KeyOf(c, BatchOf(c, s, w)) != k
    ensures var t := Apply(c, s, CountDown(w));
      Shape(c, t) && KeyInv(c, t, k)
  {
    var b := BatchOf(c, s, w);
    CountDownFrame(Given(c, s, w), KeyOf(c, b), c.batches[b].data.blockCount, k, BlockCount);
    FrameKey(c, s, Apply(c, s, CountDown(w)), b, k);
  }

  lemma StepKey(c: Config, s: State, step: Step, k: Key)
    requires Struct(c, s) && Enabled(c, s, step) && KeyInv(c, s, k) && WholeOnly(c, k)
    ensures Shape(c, Apply(c, s, step)) && KeyInv(c, Apply(c, s, step), k)
  {
    if step.CountDown? {
      if KeyOf(c, BatchOf(c, s, step.w)) == k {
        CountDownOwnKey(c, s, step.w);
      } else {
        CountDownOtherKey(c, s, step.w, k);
      }
    } else {
      WorkKey(c, s, step, k);
    }
  }

  // ---------------------------------------------------------------- conservation, step by step

  function One(r: Row, m: Measure): int {
    if m == CopiesOf(r) then 1 else 0
  }

  lemma WeightAppend(d: Contents, r: Row, m: Measure)
    ensures Weight(AppendRow(d, r), m) == Weight(d, m) + One(r, m)
  {
    assert (d.rows + [r])[..|d.rows|] == d.rows;
  }

  lemma ShareMerge(c: Config, b: nat, w: nat, n: nat, m: Measure)
    requires b < |c.batches| && n < |c.batches[b].data.rows|
    ensures Share(c, b, Merging(w, n + 1), m) == Share(c, b, Merging(w, n), m) + One(ProjectedRow(c, b, n), m)
  {
    assert ProjectedPrefix(c, b, n + 1) == ProjectedPrefix(c, b, n) + [ProjectedRow(c, b, n)];
    WeightAppend(EMPTY.(rows := ProjectedPrefix(c, b, n)), ProjectedRow(c, b, n), m);
  }

  lemma MergeRowBalance(c: Config, s: State, w: nat, j: Key, x: Row, k: Key, m: Measure)
    requires w < |s.workers|
    ensures var t := MergeRowInto(c, s, w, j, x);
      Sent(t.returned, k, m) + Held(t.workers, k, m) ==
        Sent(s.returned, k, m) + Held(s.workers, k, m) + (if j == k then One(x, m) else 0)
  {
    var t := MergeRowInto(c, s, w, j, x);
    var d := Lookup(s.workers[w].buffers, j);
    HeldUpdate(s.workers, w, t.workers[w], k, m);
    if Full(c, d, x) {
      SentConcat(s.returned, [Returned(j, d, false)], k, m);
      WeightAppend(EMPTY, x, m);
    } else {
      WeightAppend(d, x, m);
    }
  }

  lemma WorkBalance(c: Config, s: State, step: Step, k: Key, m: Measure)
    requires Struct(c, s) && Enabled(c, s, step) && Balanced(c, s, k, m)
    requires step.Arrive? || step.Pop? || step.MakeBlockCountMap? || step.CheckIdBuffer?
    ensures var t := Apply(c, s, step);
      AllSane(c, t.stage) && Balanced(c, t, k, m)
  {
    var t := Apply(c, s, step);
    var b := Moved(c, s, step);
    OwedUpdate(c, s.stage, b, t.stage[b], k, |s.stage|, m);
    if step.Pop? || step.CheckIdBuffer? {
      HeldUpdate(s.workers, step.w, t.workers[step.w], k, m);
    }
  }

  /** A batch that moves on to a stage with a larger share balances when the gain shows up in
      what is returned or held. */
  lemma BalancedMove(c: Config, s: State, t: State, b: nat, st: Stage, gain: int, k: Key, m: Measure)
    requires AllSane(c, s.stage) && b < |s.stage| && Sane(c, b, st) && Balanced(c, s, k, m)
    requires t.stage == s.stage[b := st] && Share(c, b, st, m) == Share(c, b, s.stage[b], m) + gain
    requires Sent(t.returned, k, m) + Held(t.workers, k, m) ==
      Sent(s.returned, k, m) + Held(s.workers, k, m) + (if KeyOf(c, b) == k then gain else 0)
    ensures AllSane(c, t.stage) && Balanced(c, t, k, m)
  {
    OwedUpdate(c, s.stage, b, st, k, |s.stage|, m);
  }

  lemma MergeBalance(c: Config, s: State, w: nat, k: Key, m: Measure)
    requires Struct(c, s) && Enabled(c, s, MergeRow(w)) && Balanced(c, s, k, m)
    ensures var t := Apply(c, s, MergeRow(w));
      AllSane(c, t.stage) && Balanced(c, t, k, m)
  {
    var b := BatchOf(c, s, w);
    var n := s.stage[b].next;
    ShareMerge(c, b, w, n, m);
    MergeRowBalance(c, s, w, KeyOf(c, b), ProjectedRow(c, b, n), k, m);
    BalancedMove(c, s, Apply(c, s, MergeRow(w)), b, Merging(w, n + 1), One(ProjectedRow(c, b, n), m), k, m);
  }

  lemma AddCountsBalance(c: Config, s: State, w: nat, k: Key, m: Measure)
    requires Struct(c, s) && Enabled(c, s, AddCounts(w)) && Balanced(c, s, k, m)
    ensures var t := Apply(c, s, AddCounts(w));
      AllSane(c, t.stage) && Balanced(c, t, k, m)
  {
    var b := BatchOf(c, s, w);
    var t := Apply(c, s, AddCounts(w));
    OwedUpdate(c, s.stage, b, Summed(w), k, |s.stage|, m);
    HeldUpdate(s.workers, w, t.workers[w], k, m);
  }

  lemma CountDownBalance(c: Config, s: State, w: nat, k: Key, m: Measure)
    requires Struct(c, s) && Enabled(c, s, CountDown(w)) && Balanced(c, s, k, m)
    ensures var t := Apply(c, s, CountDown(w));
      AllSane(c, t.stage) && Balanced(c, t, k, m)
  {
    var b := BatchOf(c, s, w);
    var j := KeyOf(c, b);
    var g := Given(c, s, w);
    OwedUpdate(c, s.stage, b, Counted, k, |s.stage|, m);
    HeldUpdate(s.workers, w, g.workers[w], k, m);
    if j == k {
      ReleaseHere(g, k, m);
    } else {
      CountDownFrame(g, j, c.batches[b].data.blockCount, k, m);
    }
  }

  lemma StepBalance(c: Config, s: State, step: Step, k: Key, m: Measure)
    requires Struct(c, s) && Enabled(c, s, step) && Balanced(c, s, k, m)
    ensures var t := Apply(c, s, step);
      AllSane(c, t.stage) && Balanced(c, t, k, m)
  {
    match step
    case MergeRow(w) => MergeBalance(c, s, w, k, m);
    case AddCounts(w) => AddCountsBalance(c, s, w, k, m);
    case CountDown(w) => CountDownBalance(c, s, w, k, m);
    case _ => WorkBalance(c, s, step, k, m);
  }
}
