/** Which block counts the completion protocol needs. The source lets any integers through: the
    SST path can emit a last batch whose count is zero or negative. */
module ProjectionCounts {
  import opened Projection
  import opened ProjectionSafety
  import opened ProjectionRuns

  // ---------------------------------------------------------------- positive counts suffice

  lemma {:induction false} SumBlocksLess(c: Config, S: set<nat>, T: set<nat>, n: nat)
    requires n <= |c.batches| && S <= T
    requires forall b :: b in T && b < |c.batches| ==> c.batches[b].data.blockCount > 0
    ensures SumBlocks(c, S, n) <= SumBlocks(c, T, n)
    ensures (exists b :: 0 <= b < n && b in T && b !in S) ==> SumBlocks(c, S, n) < SumBlocks(c, T, n)
    decreases n
  {
    if n > 0 {
      SumBlocksLess(c, S, T, n - 1);
      if b :| 0 <= b < n && b in T && b !in S {
        assert b == n - 1 || b < n - 1;
      }
    }
  }

  /** Positive counts that add up to csd_block_count can only reach it together. */
  lemma PositiveCountsSuffice(c: Config, k: Key)
    requires forall b :: 0 <= b < |c.batches| && KeyOf(c, b) == k ==> c.batches[b].data.blockCount > 0
    requires Blocks(c, BatchesOf(c, k)) == c.total(k)
    ensures WholeOnly(c, k)
  {
    forall S: set<nat> | S < BatchesOf(c, k) && S != {} ensures Blocks(c, S) != c.total(k) {
      var b :| b in BatchesOf(c, k) && b !in S;
      SumBlocksLess(c, S, BatchesOf(c, k), |c.batches|);
    }
  }

  // ---------------------------------------------------------------- and no weaker condition does

  /** Worker 0 serves the batches of k one after the other: those in P are done, b is at st, and
      nothing else has been sent. */
  ghost predicate Serving(c: Config, s: State, P: set<nat>, b: nat, st: Stage, k: Key) {
    && Struct(c, s) && c.workers > 0 && b < |c.batches| && KeyOf(c, b) == k && b !in P
    && (forall x :: 0 <= x < |s.stage| ==>
        s.stage[x] == if x == b then st else if x in P then Counted else NotSent)
    && (Active(st) ==> st.w == 0)
    && Flags(s.returned, k) == 0
    && (k in s.counts ==> s.counts[k] == c.total(k) - Blocks(c, P))
    && (P != {} || Registers(st) ==> k in s.counts)
    && (P == {} && !Registers(st) ==> k !in s.counts)
    && (Keeps(st) ==> k in s.workers[0].buffers)
  }

  /** Nothing is under way; the batches in P are done and k has not been released. */
  ghost predicate Resting(c: Config, s: State, P: set<nat>, k: Key) {
    && Struct(c, s) && c.workers > 0
    && (forall x :: 0 <= x < |s.stage| ==> s.stage[x] == if x in P then Counted else NotSent)
    && Flags(s.returned, k) == 0
    && (k in s.counts ==> s.counts[k] == c.total(k) - Blocks(c, P))
    && (k in s.counts <==> P != {})
  }

  /** k has been released with exactly the batches in Q merged. */
  ghost predicate Released(c: Config, s: State, Q: set<nat>, k: Key) {
    && Struct(c, s) && CountedSet(c, s.stage, k) == Q && Blocks(c, Q) == c.total(k) && Q != {}
    && (forall x :: 0 <= x < |s.stage| ==> s.stage[x] == if x in Q then Counted else NotSent)
    && Flags(s.returned, k) > 0
  }

  function NextStep(c: Config, b: nat, st: Stage): Step
    requires b < |c.batches|
  {
    match st
    case NotSent => Arrive(b)
    case Queued => Pop(0)
    case Popped(_) => MakeBlockCountMap(0)
    case Registered(_) => CheckIdBuffer(0)
    case Merging(_, n) => if n < |c.batches[b].data.rows| then MergeRow(0) else AddCounts(0)
    case _ => CountDown(0)
  }

  lemma ServingEnabled(c: Config, s: State, P: set<nat>, b: nat, st: Stage, k: Key)
    requires Serving(c, s, P, b, st, k) && st != Counted
    ensures Enabled(c, s, NextStep(c, b, st))
    ensures st == Queued ==> s.queue[0] == b
    ensures Active(st) ==> s.workers[0].job == Job(b)
  {
    if st == Queued {
      assert b in s.queue;
      assert s.stage[s.queue[0]] == Queued;
    }
  }

  lemma ServingStep(c: Config, s: State, P: set<nat>, b: nat, st: Stage, k: Key)
    requires Serving(c, s, P, b, st, k) && st != Counted && !st.Summed?
    ensures Enabled(c, s, NextStep(c, b, st))
    ensures var t := Apply(c, s, NextStep(c, b, st));
      |t.stage| == |c.batches| && Serving(c, t, P, b, t.stage[b], k) && Rank(c, b, t.stage[b]) == Rank(c, b, st) - 1
  {
    var step := NextStep(c, b, st);
    ServingEnabled(c, s, P, b, st, k);
    var t := Apply(c, s, step);
    StepStruct(c, s, step);
    StepRank(c, s, step);
    WorkMove(c, s, step, k);
    if P == {} {
      SumBlocksNone(c, |c.batches|);
    }
  }

  lemma {:induction false} ServeUntilSummed(c: Config, s: State, P: set<nat>, b: nat, st: Stage, k: Key)
    returns (steps: seq<Step>, t: State)
    requires Serving(c, s, P, b, st, k) && st != Counted
    ensures Exec(c, s, steps) == At(t) && Serving(c, t, P, b, Summed(0), k)
    decreases Rank(c, b, st)
  {
    if st.Summed? {
      return [], s;
    }
    ServingStep(c, s, P, b, st, k);
    var step := NextStep(c, b, st);
    var u := Apply(c, s, step);
    var rest;
    rest, t := ServeUntilSummed(c, u, P, b, u.stage[b], k);
    steps := [step] + rest;
    assert steps[1..] == rest;
  }

  /** The countdown of the batch being served. */
  lemma ServeCountDown(c: Config, s: State, P: set<nat>, b: nat, k: Key)
    requires Serving(c, s, P, b, Summed(0), k) && P <= BatchesOf(c, k)
    ensures Enabled(c, s, CountDown(0))
    ensures var t := Apply(c, s, CountDown(0));
      if Blocks(c, P + {b}) == c.total(k) then Released(c, t, P + {b}, k) else Resting(c, t, P + {b}, k)
  {
    ServingEnabled(c, s, P, b, Summed(0), k);
    ServedStage(c, s, P, b, k);
    CountDownEffect(c, s, 0);
    SumBlocksAdd(c, P, b, |c.batches|);
  }

  lemma ServedStage(c: Config, s: State, P: set<nat>, b: nat, k: Key)
    requires Serving(c, s, P, b, Summed(0), k) && P <= BatchesOf(c, k) && Enabled(c, s, CountDown(0))
    ensures var t := Apply(c, s, CountDown(0));
      && Struct(c, t) && CountedSet(c, t.stage, k) == P + {b}
      && forall x :: 0 <= x < |t.stage| ==> t.stage[x] == if x in P + {b} then Counted else NotSent
  {
    ServingEnabled(c, s, P, b, Summed(0), k);
    StepStruct(c, s, CountDown(0));
    StepRank(c, s, CountDown(0));
  }

  /** One more batch of k, from its arrival to its countdown. */
  lemma ServeOne(c: Config, s: State, P: set<nat>, b: nat, k: Key) returns (steps: seq<Step>, t: State)
    requires Resting(c, s, P, k) && P <= BatchesOf(c, k) && b in BatchesOf(c, k) && b !in P
    ensures Exec(c, s, steps) == At(t)
    ensures if Blocks(c, P + {b}) == c.total(k) then Released(c, t, P + {b}, k) else Resting(c, t, P + {b}, k)
  {
    assert Serving(c, s, P, b, NotSent, k);
    var first, u := ServeUntilSummed(c, s, P, b, NotSent, k);
    ServeCountDown(c, u, P, b, k);
    t := Apply(c, u, CountDown(0));
    assert Exec(c, u, [CountDown(0)]) == At(t);
    ExecConcat(c, s, first, [CountDown(0)]);
    steps := first + [CountDown(0)];
  }

  /** Serve the batches of S \ P in some order, stopping early if k is released. */
  lemma {:induction false} ServeAll(c: Config, s: State, P: set<nat>, S: set<nat>, k: Key)
    returns (steps: seq<Step>, t: State, Q: set<nat>)
    requires Resting(c, s, P, k) && P <= S <= BatchesOf(c, k)
    ensures Exec(c, s, steps) == At(t) && Q <= S
    ensures Released(c, t, Q, k) || (Q == S && Resting(c, t, S, k) && (S != P ==> Blocks(c, S) != c.total(k)))
    decreases S - P
  {
    if P == S {
      return [], s, S;
    }
    var b :| b in S && b !in P;
    steps, t := ServeOne(c, s, P, b, k);
    Q := P + {b};
    if Blocks(c, Q) != c.total(k) {
      var rest, u;
      rest, u, Q := ServeAll(c, t, P + {b}, S, k);
      ExecConcat(c, s, steps, rest);
      steps, t := steps + rest, u;
    }
  }

  /** Under every schedule k is released only when all its batches are merged, and then once. */
  ghost predicate AlwaysReleasedOnce(c: Config, k: Key) {
    forall steps: seq<Step> | Exec(c, Init(c), steps).At? ::
      var s := Exec(c, Init(c), steps).state;
      && Shape(c, s)
      && Flags(s.returned, k) == if CountedSet(c, s.stage, k) == BatchesOf(c, k) then 1 else 0
  }

  /** The exact condition: the protocol is right under every schedule if and only if k has batches,
      their counts add up to csd_block_count, and those of no smaller collection of them do. */
  lemma ExactCondition(c: Config, k: Key)
    requires c.workers > 0
    ensures AlwaysReleasedOnce(c, k) <==> BatchesOf(c, k) != {} && WholeOnly(c, k)
  {
    if BatchesOf(c, k) == {} {
      assert Exec(c, Init(c), []) == At(Init(c));
      assert CountedSet(c, Init(c).stage, k) == {} && Flags([], k) == 0;
    } else if WholeOnly(c, k) {
      forall steps: seq<Step> | Exec(c, Init(c), steps).At?
        ensures var s := Exec(c, Init(c), steps).state;
          Shape(c, s) && Flags(s.returned, k) == if CountedSet(c, s.stage, k) == BatchesOf(c, k) then 1 else 0
      {
        InitStruct(c);
        InitKey(c, k, BlockCount);
        RunKey(c, Init(c), steps, k);
      }
    } else {
      InitStruct(c);
      assert Resting(c, Init(c), {}, k);
      var S := BatchesOf(c, k);
      if Blocks(c, S) == c.total(k) {
        S :| S < BatchesOf(c, k) && S != {} && Blocks(c, S) == c.total(k);
      }
      var steps, t, Q := ServeAll(c, Init(c), {}, S, k);
      if !Released(c, t, Q, k) {
        assert CountedSet(c, t.stage, k) == BatchesOf(c, k);
      }
      assert Exec(c, Init(c), steps).At?;
    }
  }
}
