/** In which order the projection layer works: batches as they arrive, buffers as the workers were
    registered, rows as the batches hold them. */
module ProjectionOrder {
  import opened RowData
  import opened Sequences
  import opened Projection
  import opened ProjectionSafety
  import opened ProjectionRuns
  import opened ProjectionEnds

  // ---------------------------------------------------------------- batches

  /** The batches in the order of their arrival. */
  function Arrived(steps: seq<Step>): seq<nat> {
    if steps == [] then [] else (if steps[0].Arrive? then [steps[0].b] else []) + Arrived(steps[1..])
  }

  /** The batches in the order in which workers take them. */
  function TakenBy(c: Config, s: State, steps: seq<Step>): seq<nat>
    decreases |steps|
  {
    if steps == [] || !Enabled(c, s, steps[0]) then []
    else (if steps[0].Pop? then [s.queue[0]] else []) + TakenBy(c, Apply(c, s, steps[0]), steps[1..])
  }

  /** One step: a batch joins at the end, or the first one leaves. */
  lemma StepQueue(c: Config, s: State, step: Step)
    requires Enabled(c, s, step)
    ensures s.queue + (if step.Arrive? then [step.b] else [])
         == (if step.Pop? then [s.queue[0]] else []) + Apply(c, s, step).queue
  {
  }

  lemma Shuffle(q: seq<nat>, a: seq<nat>, arrived: seq<nat>, p: seq<nat>, r: seq<nat>, taken: seq<nat>, end: seq<nat>)
    requires q + a == p + r && r + arrived == taken + end
    ensures q + (a + arrived) == (p + taken) + end
  {
    assert q + (a + arrived) == (q + a) + arrived == (p + r) + arrived == p + (r + arrived) == p + (taken + end);
  }

  lemma {:induction false} RunQueue(c: Config, s: State, steps: seq<Step>)
    requires Exec(c, s, steps).At?
    ensures s.queue + Arrived(steps) == TakenBy(c, s, steps) + Exec(c, s, steps).state.queue
    decreases |steps|
  {
    if steps == [] {
      assert s.queue + [] == [] + s.queue;
    } else {
      var t := Apply(c, s, steps[0]);
      StepQueue(c, s, steps[0]);
      RunQueue(c, t, steps[1..]);
      Shuffle(s.queue, if steps[0].Arrive? then [steps[0].b] else [], Arrived(steps[1..]),
              if steps[0].Pop? then [s.queue[0]] else [], t.queue, TakenBy(c, t, steps[1..]),
              Exec(c, t, steps[1..]).state.queue);
    }
  }

  /** Under every schedule the batches taken and then those queued are the batches as they arrived. */
  lemma TakenInOrder(c: Config, steps: seq<Step>)
    requires Exec(c, Init(c), steps).At?
    ensures Arrived(steps) == TakenBy(c, Init(c), steps) + Exec(c, Init(c), steps).state.queue
  {
    RunQueue(c, Init(c), steps);
    assert [] + Arrived(steps) == Arrived(steps);
  }

  // ---------------------------------------------------------------- the release

  /** The workers among the first n that hold a buffer of k, in the order of the worker list. */
  function Holders(ws: seq<Worker>, k: Key, n: nat): (hs: seq<nat>)
    requires n <= |ws|
    ensures forall i :: 0 <= i < |hs| ==> hs[i] < n && k in ws[hs[i]].buffers
    ensures forall i, j :: 0 <= i < j < |hs| ==> hs[i] < hs[j]
  {
    if n == 0 then [] else Holders(ws, k, n - 1) + if k in ws[n - 1].buffers then [n - 1] else []
  }

  lemma {:induction false} EveryHolder(ws: seq<Worker>, k: Key, n: nat, w: nat)
    requires w < n <= |ws| && k in ws[w].buffers
    ensures w in Holders(ws, k, n)
    decreases n
  {
    if w < n - 1 {
      EveryHolder(ws, k, n - 1, w);
    }
  }

  /** A release returns the buffer of every worker that has one, in the order of the worker list, and
      flags the first. */
  lemma {:induction false} ReleaseOrder(ws: seq<Worker>, k: Key, n: nat)
    requires n <= |ws|
    ensures var log, hs := ReleaseLog(ws[..n], k, true), Holders(ws, k, n);
      |log| == |hs| && forall i :: 0 <= i < |hs| ==> log[i] == Returned(k, ws[hs[i]].buffers[k], i == 0)
    decreases n
  {
    if n == 0 {
      assert ws[..0] == [];
    } else {
      ReleaseOrder(ws, k, n - 1);
      ReleaseLogSnoc(ws[..n - 1], ws[n - 1], k, true);
      assert ws[..n] == ws[..n - 1] + [ws[n - 1]];
    }
  }

  // ---------------------------------------------------------------- the rows of one worker

  /** The first n projected rows of batch b, if it is one of k. */
  function RowsFor(c: Config, b: nat, n: nat, k: Key): seq<Row>
    requires b < |c.batches| && n <= |c.batches[b].data.rows|
  {
    if KeyOf(c, b) == k then ProjectedPrefix(c, b, n) else []
  }

  /** All of them, for a list of batches. */
  function RowsInOrder(c: Config, bs: seq<nat>, k: Key): seq<Row>
    requires forall i :: 0 <= i < |bs| ==> bs[i] < |c.batches|
  {
    if bs == [] then []
    else var b := bs[|bs| - 1]; RowsInOrder(c, bs[..|bs| - 1], k) + RowsFor(c, b, |c.batches[b].data.rows|, k)
  }

  lemma RowsInOrderSnoc(c: Config, bs: seq<nat>, b: nat, k: Key)
    requires b < |c.batches| && forall i :: 0 <= i < |bs| ==> bs[i] < |c.batches|
    ensures RowsInOrder(c, bs + [b], k) == RowsInOrder(c, bs, k) + RowsFor(c, b, |c.batches[b].data.rows|, k)
  {
    assert (bs + [b])[..|bs|] == bs;
  }

  /** How many rows of a batch at st are merged. */
  function MergedIn(c: Config, b: nat, st: Stage): (n: nat)
    requires b < |c.batches| && Sane(c, b, st)
    ensures n <= |c.batches[b].data.rows|
  {
    match st
    case Merging(_, next) => next
    case Summed(_) => |c.batches[b].data.rows|
    case _ => 0
  }

  function Current(s: State): seq<nat> {
    if |s.workers| > 0 && s.workers[0].job.Job? then [s.workers[0].job.batch] else []
  }

  /** What the one worker has merged of the batch it is at. */
  function Begun(c: Config, s: State, k: Key): seq<Row>
    requires Struct(c, s) && c.workers == 1
  {
    if s.workers[0].job == NoJob then []
    else var b := s.workers[0].job.batch; RowsFor(c, b, MergedIn(c, b, s.stage[b]), k)
  }

  /** What has been returned for k and then what is held. */
  function Out(s: State, k: Key): seq<Row>
    requires |s.workers| > 0
  {
    ReturnedRows(s.returned, k) + Lookup(s.workers[0].buffers, k).rows
  }

  predicate Ordered(c: Config, s: State, done: seq<nat>, k: Key)
    requires Struct(c, s) && c.workers == 1
  {
    && (forall i :: 0 <= i < |done| ==> done[i] < |c.batches|)
    && Out(s, k) == RowsInOrder(c, done, k) + Begun(c, s, k)
  }

  lemma {:induction false} ReturnedConcat(a: seq<Returned>, b: seq<Returned>, k: Key)
    ensures ReturnedRows(a + b, k) == ReturnedRows(a, k) + ReturnedRows(b, k)
    decreases |a|
  {
    if a == [] {
      assert a + b == b;
    } else {
      assert (a + b)[1..] == a[1..] + b;
      ReturnedConcat(a[1..], b, k);
    }
  }

  lemma ReturnedOne(log: seq<Returned>, e: Returned, k: Key)
    ensures ReturnedRows(log + [e], k) == ReturnedRows(log, k) + if e.key == k then e.data.rows else []
  {
    ReturnedConcat(log, [e], k);
    assert [e][1..] == [];
  }

  lemma OneMore(a: seq<Row>, held: seq<Row>, r: Row)
    ensures (a + held) + [r] == a + (held + [r])
  {
  }

  /** A merged row goes behind all rows of its snippet so far. */
  lemma MergeOut(c: Config, s: State, k: Key)
    requires Struct(c, s) && c.workers == 1 && Enabled(c, s, MergeRow(0))
    ensures var b, t := BatchOf(c, s, 0), Apply(c, s, MergeRow(0));
      && |t.workers| == 1
      && Out(t, k) == Out(s, k) + if KeyOf(c, b) == k then [ProjectedRow(c, b, s.stage[b].next)] else []
  {
    var b := BatchOf(c, s, 0);
    var j, r := KeyOf(c, b), ProjectedRow(c, b, s.stage[b].next);
    var d := Lookup(s.workers[0].buffers, j);
    ReturnedOne(s.returned, Returned(j, d, false), k);
    OneMore(ReturnedRows(s.returned, k), d.rows, r);
    assert [] + [r] == [r];
    assert Out(s, k) + [] == Out(s, k);
  }

  lemma BegunNext(c: Config, b: nat, n: nat, k: Key)
    requires b < |c.batches| && n < |c.batches[b].data.rows|
    ensures RowsFor(c, b, n + 1, k) == RowsFor(c, b, n, k) + if KeyOf(c, b) == k then [ProjectedRow(c, b, n)] else []
  {
  }

  lemma MergeBegun(c: Config, s: State, k: Key)
    requires Struct(c, s) && c.workers == 1 && Enabled(c, s, MergeRow(0)) && Struct(c, Apply(c, s, MergeRow(0)))
    ensures var b := BatchOf(c, s, 0);
      && Begun(c, s, k) == RowsFor(c, b, s.stage[b].next, k)
      && Begun(c, Apply(c, s, MergeRow(0)), k)
         == Begun(c, s, k) + if KeyOf(c, b) == k then [ProjectedRow(c, b, s.stage[b].next)] else []
  {
    BegunNext(c, BatchOf(c, s, 0), s.stage[BatchOf(c, s, 0)].next, k);
  }

  lemma MergeOrdered(c: Config, s: State, done: seq<nat>, k: Key)
    requires Struct(c, s) && c.workers == 1 && Enabled(c, s, MergeRow(0)) && Ordered(c, s, done, k)
    ensures Struct(c, Apply(c, s, MergeRow(0))) && Ordered(c, Apply(c, s, MergeRow(0)), done, k)
  {
    var b := BatchOf(c, s, 0);
    var n := s.stage[b].next;
    StepStruct(c, s, MergeRow(0));
    MergeOut(c, s, k);
    MergeBegun(c, s, k);
    Shift(RowsInOrder(c, done, k), RowsFor(c, b, n, k),
          if KeyOf(c, b) == k then [ProjectedRow(c, b, n)] else []);
  }

  lemma Shift(a: seq<Row>, b: seq<Row>, d: seq<Row>)
    ensures (a + b) + d == a + (b + d)
  {
  }

  lemma {:induction false} NoneOf(log: seq<Returned>, k: Key)
    requires forall i :: 0 <= i < |log| ==> log[i].key != k
    ensures ReturnedRows(log, k) == []
    decreases |log|
  {
    if log != [] {
      NoneOf(log[1..], k);
    }
  }

  lemma AloneReleased(ws: seq<Worker>, j: Key)
    requires |ws| == 1
    ensures ReleaseLog(ws, j, true) == if j in ws[0].buffers then [Returned(j, ws[0].buffers[j], true)] else []
  {
    assert ws[1..] == [];
    assert ReleaseLog([], j, false) == ReleaseLog([], j, true) == [];
  }

  lemma ReleaseOut(g: State, j: Key, k: Key)
    requires |g.workers| == 1
    ensures Out(Release(g, j), k) == Out(g, k)
  {
    var log, t := ReleaseLog(g.workers, j, true), Release(g, j);
    AloneReleased(g.workers, j);
    ReturnedConcat(g.returned, log, k);
    if j == k && k in g.workers[0].buffers {
      ReturnedOne([], log[0], k);
      assert [] + log == log;
      EmptyBehind(ReturnedRows(g.returned, k) + ReturnedRows(log, k));
    } else {
      NoneOf(log, k);
      EmptyBehind(ReturnedRows(g.returned, k));
    }
  }

  lemma EmptyBehind(a: seq<Row>)
    ensures a + [] == a
  {
  }

  /** A countdown moves rows from the buffer to the return layer or leaves them. */
  lemma CountDownOut(c: Config, s: State, k: Key)
    requires Struct(c, s) && c.workers == 1 && Enabled(c, s, CountDown(0))
    ensures var t := Apply(c, s, CountDown(0)); |t.workers| == 1 && Out(t, k) == Out(s, k)
  {
    ReleaseOut(Given(c, s, 0), KeyOf(c, BatchOf(c, s, 0)), k);
  }

  lemma CountDownOrdered(c: Config, s: State, done: seq<nat>, k: Key)
    requires Struct(c, s) && c.workers == 1 && Enabled(c, s, CountDown(0)) && Ordered(c, s, done, k)
    ensures var t := Apply(c, s, CountDown(0));
      Struct(c, t) && t.workers[0].job == NoJob && Ordered(c, t, done + [BatchOf(c, s, 0)], k)
  {
    var b := BatchOf(c, s, 0);
    StepStruct(c, s, CountDown(0));
    CountDownOut(c, s, k);
    CountDownBegun(c, s, k);
    RowsInOrderSnoc(c, done, b, k);
    EmptyBehind(RowsInOrder(c, done + [b], k));
  }

  lemma CountDownBegun(c: Config, s: State, k: Key)
    requires Struct(c, s) && c.workers == 1 && Enabled(c, s, CountDown(0)) && Struct(c, Apply(c, s, CountDown(0)))
    ensures var b := BatchOf(c, s, 0);
      && Begun(c, s, k) == RowsFor(c, b, |c.batches[b].data.rows|, k)
      && Apply(c, s, CountDown(0)).workers[0].job == NoJob && Begun(c, Apply(c, s, CountDown(0)), k) == []
  {
  }

  lemma OtherOrdered(c: Config, s: State, step: Step, done: seq<nat>, k: Key)
    requires Struct(c, s) && c.workers == 1 && Enabled(c, s, step) && Ordered(c, s, done, k)
    requires !step.MergeRow? && !step.CountDown?
    ensures Struct(c, Apply(c, s, step)) && Ordered(c, Apply(c, s, step), done, k)
  {
    StepStruct(c, s, step);
    SameOut(c, s, step, k);
    SameBegun(c, s, step, k);
  }

  lemma SameOut(c: Config, s: State, step: Step, k: Key)
    requires c.workers == 1 && Enabled(c, s, step) && !step.MergeRow? && !step.CountDown?
    ensures |Apply(c, s, step).workers| == 1 && Out(Apply(c, s, step), k) == Out(s, k)
  {
  }

  lemma SameBegun(c: Config, s: State, step: Step, k: Key)
    requires Struct(c, s) && c.workers == 1 && Enabled(c, s, step) && Struct(c, Apply(c, s, step))
    requires !step.MergeRow? && !step.CountDown?
    ensures Begun(c, Apply(c, s, step), k) == Begun(c, s, k)
  {
  }

  lemma StepOrdered(c: Config, s: State, step: Step, done: seq<nat>, k: Key) returns (next: seq<nat>)
    requires Struct(c, s) && c.workers == 1 && Enabled(c, s, step) && Ordered(c, s, done, k)
    ensures Struct(c, Apply(c, s, step)) && Ordered(c, Apply(c, s, step), next, k)
    ensures next == if step.CountDown? then done + Current(s) else done
  {
    next := done;
    match step {
      case MergeRow(_) => MergeOrdered(c, s, done, k);
      case CountDown(_) =>
        CountDownOrdered(c, s, done, k);
        next := done + Current(s);
      case _ => OtherOrdered(c, s, step, done, k);
    }
  }

  lemma {:induction false} RunOrdered(c: Config, s: State, steps: seq<Step>, done: seq<nat>, k: Key)
    returns (end: seq<nat>)
    requires Struct(c, s) && c.workers == 1 && Exec(c, s, steps).At? && Ordered(c, s, done, k)
    ensures var t := Exec(c, s, steps).state;
      Struct(c, t) && Ordered(c, t, end, k) && end + Current(t) == done + Current(s) + TakenBy(c, s, steps)
    decreases |steps|
  {
    if steps == [] {
      end := done;
      assert done + Current(s) + [] == done + Current(s);
    } else {
      var t := Apply(c, s, steps[0]);
      var next := StepOrdered(c, s, steps[0], done, k);
      end := RunOrdered(c, t, steps[1..], next, k);
      TakenStep(c, s, steps, done, next);
    }
  }

  lemma CurrentStep(c: Config, s: State, step: Step)
    requires Struct(c, s) && c.workers == 1 && Enabled(c, s, step)
    ensures var t := Apply(c, s, step);
      && (step.Pop? ==> Current(s) == [] && Current(t) == [s.queue[0]])
      && (step.CountDown? ==> Current(t) == [])
      && (!step.Pop? && !step.CountDown? ==> Current(t) == Current(s))
  {
  }

  lemma TakenStep(c: Config, s: State, steps: seq<Step>, done: seq<nat>, next: seq<nat>)
    requires Struct(c, s) && c.workers == 1 && steps != [] && Enabled(c, s, steps[0])
    requires next == if steps[0].CountDown? then done + Current(s) else done
    ensures var t := Apply(c, s, steps[0]);
      next + Current(t) + TakenBy(c, t, steps[1..]) == done + Current(s) + TakenBy(c, s, steps)
  {
    CurrentStep(c, s, steps[0]);
    Rearrange(done, Current(s), Current(Apply(c, s, steps[0])), if steps[0].Pop? then [s.queue[0]] else [],
              TakenBy(c, Apply(c, s, steps[0]), steps[1..]), next);
  }

  lemma Rearrange(done: seq<nat>, was: seq<nat>, is_: seq<nat>, popped: seq<nat>, rest: seq<nat>, next: seq<nat>)
    requires (was == [] && is_ == popped && next == done)
          || (popped == [] && is_ == [] && next == done + was)
          || (popped == [] && is_ == was && next == done)
    ensures next + is_ + rest == done + was + (popped + rest)
  {
  }

  /** With one worker every complete run returns, and then holds, the projected rows of a snippet in the
      order in which its batches arrived. */
  lemma RowsInArrivalOrder(c: Config, steps: seq<Step>, k: Key)
    requires c.workers == 1 && Complete(c, steps)
    ensures var s, bs := Exec(c, Init(c), steps).state, Arrived(steps);
      && |s.workers| == 1 && (forall i :: 0 <= i < |bs| ==> bs[i] < |c.batches|)
      && Out(s, k) == RowsInOrder(c, bs, k)
  {
    var s := Exec(c, Init(c), steps).state;
    InitStruct(c);
    var end := RunOrdered(c, Init(c), steps, [], k);
    NothingLeft(c, steps);
    TakenInOrder(c, steps);
    assert end + [] == end && [] + Current(Init(c)) + TakenBy(c, Init(c), steps) == TakenBy(c, Init(c), steps);
    assert TakenBy(c, Init(c), steps) + [] == TakenBy(c, Init(c), steps);
    assert RowsInOrder(c, end, k) + [] == RowsInOrder(c, end, k);
  }

  /** In a complete run nothing is queued and no worker is at work. */
  lemma NothingLeft(c: Config, steps: seq<Step>)
    requires c.workers > 0 && Complete(c, steps)
    ensures var s := Exec(c, Init(c), steps).state;
      Struct(c, s) && s.queue == [] && forall w :: 0 <= w < |s.workers| ==> s.workers[w].job == NoJob
  {
    var s := Exec(c, Init(c), steps).state;
    InitStruct(c);
    RunStruct(c, Init(c), steps);
    assert s.queue != [] ==> s.stage[s.queue[0]] == Queued;
    EveryRunCompletes(c, steps);
    forall b | 0 <= b < |s.stage| ensures s.stage[b] == Counted {
      assert b in BatchesOf(c, KeyOf(c, b));
      assert b in CountedSet(c, s.stage, KeyOf(c, b));
    }
  }
}
