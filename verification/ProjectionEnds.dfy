/** How complete runs of the projection layer end, for any block counts. */
module ProjectionEnds {
  import opened Projection
  import opened ProjectionSafety
  import opened ProjectionRuns
  import opened ProjectionCounts

  /** A run with no step left to do. */
  predicate Complete(c: Config, steps: seq<Step>) {
    Exec(c, Init(c), steps).At? && |steps| == Work(c)
  }

  /** Every run can be completed. */
  lemma {:induction false} Completion(c: Config, steps: seq<Step>) returns (more: seq<Step>)
    requires c.workers > 0 && Exec(c, Init(c), steps).At?
    ensures Complete(c, steps + more)
    decreases Work(c) - |steps|
  {
    var s := Exec(c, Init(c), steps).state;
    EveryRunCompletes(c, steps);
    if |steps| == Work(c) {
      more := [];
      assert steps + [] == steps;
    } else {
      var step :| Enabled(c, s, step);
      ExecConcat(c, Init(c), steps, [step]);
      assert [step][1..] == [];
      var rest := Completion(c, steps + [step]);
      more := [step] + rest;
      assert steps + more == steps + [step] + rest;
    }
  }

  // ---------------------------------------------------------------- after a release that came too early

  lemma ReleaseFlagsGrow(s: State, j: Key, blocks: int, k: Key)
    ensures Flags(CountDownKey(s, j, blocks).returned, k) >= Flags(s.returned, k)
  {
    FlagsConcat(s.returned, ReleaseLog(s.workers, j, true), k);
    FlagsSign(ReleaseLog(s.workers, j, true), k);
  }

  lemma FlagsGrow(c: Config, s: State, step: Step, k: Key)
    requires Struct(c, s) && Enabled(c, s, step)
    ensures Flags(Apply(c, s, step).returned, k) >= Flags(s.returned, k)
  {
    if step.CountDown? {
      var b := BatchOf(c, s, step.w);
      ReleaseFlagsGrow(Given(c, s, step.w), KeyOf(c, b), c.batches[b].data.blockCount, k);
    } else {
      WorkMove(c, s, step, k);
    }
  }

  /** The batches in Q were counted when k was released; a later one has started a new countdown. */
  predicate Restarted(c: Config, s: State, Q: set<nat>, k: Key)
    requires Shape(c, s)
  {
    && (forall b :: 0 <= b < |s.stage| && KeyOf(c, b) == k && b !in Q ==>
        (Registers(s.stage[b]) || s.stage[b] == Counted ==> k in s.counts))
    && (forall b :: 0 <= b < |s.stage| && KeyOf(c, b) == k && Keeps(s.stage[b]) ==>
        s.stage[b].w < |s.workers| && k in s.workers[s.stage[b].w].buffers)
  }

  /** k has been released twice, or once and a new countdown is under way. */
  predicate Late(c: Config, s: State, Q: set<nat>, k: Key)
    requires Shape(c, s)
  {
    && (forall b :: 0 <= b < |s.stage| && b in Q ==> s.stage[b] == Counted)
    && (Flags(s.returned, k) >= 2 || (Flags(s.returned, k) == 1 && Restarted(c, s, Q, k)))
  }

  lemma MoveRestarted(c: Config, s: State, t: State, b: nat, st: Stage, Q: set<nat>, k: Key)
    requires Shape(c, s) && Shape(c, t) && b < |c.batches| && MoveOk(c, s, t, b, st, k) && Restarted(c, s, Q, k)
    ensures Restarted(c, t, Q, k)
  {
  }

  lemma CountDownRestarted(c: Config, s: State, w: nat, Q: set<nat>, k: Key)
    requires Struct(c, s) && Enabled(c, s, CountDown(w)) && Restarted(c, s, Q, k) && BatchOf(c, s, w) !in Q
    ensures var t := Apply(c, s, CountDown(w));
      Shape(c, t) && (Flags(t.returned, k) > Flags(s.returned, k) || Restarted(c, t, Q, k))
  {
    var b := BatchOf(c, s, w);
    if KeyOf(c, b) == k {
      assert Registers(s.stage[b]) && Keeps(s.stage[b]);
      CountDownEffect(c, s, w);
    } else {
      CountDownFrame(Given(c, s, w), KeyOf(c, b), c.batches[b].data.blockCount, k, BlockCount);
    }
  }

  lemma StepLate(c: Config, s: State, step: Step, Q: set<nat>, k: Key)
    requires Struct(c, s) && Enabled(c, s, step) && Late(c, s, Q, k)
    ensures Shape(c, Apply(c, s, step)) && Late(c, Apply(c, s, step), Q, k)
  {
    var b, t := Moved(c, s, step), Apply(c, s, step);
    StepRank(c, s, step);
    StepStruct(c, s, step);
    FlagsGrow(c, s, step, k);
    assert s.stage[b] != Counted;
    if Flags(s.returned, k) == 1 {
      if step.CountDown? {
        CountDownRestarted(c, s, step.w, Q, k);
      } else {
        WorkMove(c, s, step, k);
        MoveRestarted(c, s, t, b, t.stage[b], Q, k);
      }
    }
  }

  lemma {:induction false} RunLate(c: Config, s: State, steps: seq<Step>, Q: set<nat>, k: Key)
    requires Struct(c, s) && Exec(c, s, steps).At? && Late(c, s, Q, k)
    ensures var t := Exec(c, s, steps).state;
      Shape(c, t) && Late(c, t, Q, k)
    decreases |steps|
  {
    if steps != [] {
      StepStruct(c, s, steps[0]);
      StepLate(c, s, steps[0], Q, k);
      RunLate(c, Apply(c, s, steps[0]), steps[1..], Q, k);
    }
  }

  // ---------------------------------------------------------------- no batches at all

  lemma StepUntouched(c: Config, s: State, step: Step, k: Key)
    requires Struct(c, s) && Enabled(c, s, step) && BatchesOf(c, k) == {}
    ensures Flags(Apply(c, s, step).returned, k) == Flags(s.returned, k)
  {
    if step.CountDown? {
      var b := BatchOf(c, s, step.w);
      assert KeyOf(c, b) == k ==> b in BatchesOf(c, k);
      CountDownFrame(Given(c, s, step.w), KeyOf(c, b), c.batches[b].data.blockCount, k, BlockCount);
    } else {
      WorkMove(c, s, step, k);
    }
  }

  lemma {:induction false} RunUntouched(c: Config, s: State, steps: seq<Step>, k: Key)
    requires Struct(c, s) && Exec(c, s, steps).At? && BatchesOf(c, k) == {}
    ensures Flags(Exec(c, s, steps).state.returned, k) == Flags(s.returned, k)
    decreases |steps|
  {
    if steps != [] {
      StepStruct(c, s, steps[0]);
      StepUntouched(c, s, steps[0], k);
      RunUntouched(c, Apply(c, s, steps[0]), steps[1..], k);
    }
  }

  // ---------------------------------------------------------------- the exact condition

  /** Released once, with the whole block count, and nothing left behind. */
  predicate Settled(c: Config, s: State, k: Key) {
    && Flags(s.returned, k) == 1 && Sent(s.returned, k, BlockCount) == c.total(k)
    && k !in s.counts && forall w :: 0 <= w < |s.workers| ==> k !in s.workers[w].buffers
  }

  ghost predicate AlwaysSettled(c: Config, k: Key) {
    forall steps: seq<Step> | Complete(c, steps) :: Settled(c, Exec(c, Init(c), steps).state, k)
  }

  lemma WholeSettles(c: Config, steps: seq<Step>, k: Key)
    requires c.workers > 0 && Complete(c, steps) && BatchesOf(c, k) != {} && WholeOnly(c, k)
    ensures Settled(c, Exec(c, Init(c), steps).state, k)
  {
    EveryRunCompletes(c, steps);
    ReleasedExactlyOnce(c, steps, k);
    BlockTotalIsSum(c, k, |c.batches|);
  }

  /** Counts that do not add up: the total of what was returned is wrong. */
  lemma WrongTotal(c: Config, steps: seq<Step>, k: Key)
    requires c.workers > 0 && Complete(c, steps) && Blocks(c, BatchesOf(c, k)) != c.total(k)
    ensures !Settled(c, Exec(c, Init(c), steps).state, k)
  {
    var s := Exec(c, Init(c), steps).state;
    EveryRunCompletes(c, steps);
    Conservation(c, steps, k, BlockCount);
    OwedWhenCounted(c, s.stage, k, |c.batches|, BlockCount);
    BlockTotalIsSum(c, k, |c.batches|);
    if forall w :: 0 <= w < |s.workers| ==> k !in s.workers[w].buffers {
      HeldNothing(s.workers, k, BlockCount);
    }
  }

  /** A part of the batches that adds up to the total: serve it first. */
  lemma EarlyRelease(c: Config, k: Key, S: set<nat>) returns (steps: seq<Step>)
    requires c.workers > 0 && S < BatchesOf(c, k) && S != {} && Blocks(c, S) == c.total(k)
    ensures Complete(c, steps) && !Settled(c, Exec(c, Init(c), steps).state, k)
  {
    InitStruct(c);
    assert Resting(c, Init(c), {}, k);
    var first, t, Q := ServeAll(c, Init(c), {}, S, k);
    assert Released(c, t, Q, k);
    assert Late(c, t, Q, k);
    var more := Completion(c, first);
    steps := first + more;
    ExecConcat(c, Init(c), first, more);
    RunLate(c, t, more, Q, k);
    EveryRunCompletes(c, steps);
    var b :| b in BatchesOf(c, k) && b !in Q;
    assert b in CountedSet(c, Exec(c, Init(c), steps).state.stage, k);
  }

  /** Every complete run releases k once, with its whole block count, and leaves nothing behind, if
      and only if k has batches, their counts add up to csd_block_count, and those of no smaller
      collection of them do. */
  lemma SettledExactly(c: Config, k: Key)
    requires c.workers > 0
    ensures AlwaysSettled(c, k) <==> BatchesOf(c, k) != {} && WholeOnly(c, k)
  {
    if BatchesOf(c, k) != {} && WholeOnly(c, k) {
      forall steps: seq<Step> | Complete(c, steps) ensures Settled(c, Exec(c, Init(c), steps).state, k) {
        WholeSettles(c, steps, k);
      }
    } else {
      assert Exec(c, Init(c), []) == At(Init(c));
      var steps := Completion(c, []);
      assert [] + steps == steps;
      if BatchesOf(c, k) == {} {
        InitStruct(c);
        RunUntouched(c, Init(c), steps, k);
      } else if Blocks(c, BatchesOf(c, k)) != c.total(k) {
        WrongTotal(c, steps, k);
      } else {
        var S :| S < BatchesOf(c, k) && S != {} && Blocks(c, S) == c.total(k);
        steps := EarlyRelease(c, k, S);
      }
    }
  }
}
