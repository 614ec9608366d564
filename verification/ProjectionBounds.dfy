/** When the merge buffers of the projection layer stay within raw_data[BUFFER_SIZE]. */
module ProjectionBounds {
  import opened RowData
  import opened Projection
  import opened ProjectionSafety
  import opened ProjectionRuns
  import opened ProjectionCounts

  /** No merge buffer and no returned packet is longer than the buffer size. */
  predicate Within(c: Config, s: State) {
    && (forall w, k :: 0 <= w < |s.workers| && k in s.workers[w].buffers ==>
        Length(s.workers[w].buffers[k]) <= c.bufferSize)
    && (forall i :: 0 <= i < |s.returned| ==> Length(s.returned[i].data) <= c.bufferSize)
  }

  /** In no state of any run. */
  ghost predicate AlwaysWithin(c: Config) {
    forall steps: seq<Step> | Exec(c, Init(c), steps).At? :: Within(c, Exec(c, Init(c), steps).state)
  }

  predicate ProjectedFits(c: Config, b: nat, i: nat)
    requires b < |c.batches| && i < |c.batches[b].data.rows|
  {
    |ProjectedRow(c, b, i)| <= c.bufferSize
  }

  /** Every projected row fits an empty buffer. */
  predicate MergeRowsFit(c: Config) {
    forall b, i :: 0 <= b < |c.batches| && 0 <= i < |c.batches[b].data.rows| ==> ProjectedFits(c, b, i)
  }

  lemma AppendLength(d: Contents, r: Row)
    ensures Length(AppendRow(d, r)) == Length(d) + |r|
  {
    FlattenSnoc(d.rows, r);
  }

  lemma MergeWithin(c: Config, s: State, w: nat, k: Key, r: Row)
    requires w < |s.workers| && Within(c, s) && |r| <= c.bufferSize
    ensures Within(c, MergeRowInto(c, s, w, k, r))
  {
    AppendLength(Lookup(s.workers[w].buffers, k), r);
    AppendLength(EMPTY, r);
  }

  lemma {:induction false} ReleaseWithin(ws: seq<Worker>, k: Key, flag: bool, size: nat, i: nat)
    requires forall w :: 0 <= w < |ws| && k in ws[w].buffers ==> Length(ws[w].buffers[k]) <= size
    requires i < |ReleaseLog(ws, k, flag)|
    ensures Length(ReleaseLog(ws, k, flag)[i].data) <= size
    decreases |ws|
  {
    if k in ws[0].buffers {
      if i > 0 {
        ReleaseWithin(ws[1..], k, false, size, i - 1);
      }
    } else {
      ReleaseWithin(ws[1..], k, flag, size, i);
    }
  }

  lemma StepWithin(c: Config, s: State, step: Step)
    requires Enabled(c, s, step) && Within(c, s) && MergeRowsFit(c)
    ensures Within(c, Apply(c, s, step))
  {
    match step
    case MergeRow(w) =>
      var b := BatchOf(c, s, w);
      assert ProjectedFits(c, b, s.stage[b].next);
      MergeWithin(c, s, w, KeyOf(c, b), ProjectedRow(c, b, s.stage[b].next));
    case CountDown(w) =>
      var g, k := Given(c, s, w), KeyOf(c, BatchOf(c, s, w));
      forall i | 0 <= i < |ReleaseLog(g.workers, k, true)|
        ensures Length(ReleaseLog(g.workers, k, true)[i].data) <= c.bufferSize
      {
        ReleaseWithin(g.workers, k, true, c.bufferSize, i);
      }
    case _ =>
  }

  lemma {:induction false} RunWithin(c: Config, s: State, steps: seq<Step>)
    requires Within(c, s) && MergeRowsFit(c) && Exec(c, s, steps).At?
    ensures Within(c, Exec(c, s, steps).state)
    decreases |steps|
  {
    if steps != [] {
      StepWithin(c, s, steps[0]);
      RunWithin(c, Apply(c, s, steps[0]), steps[1..]);
    }
  }

  // ---------------------------------------------------------------- and no weaker condition does

  /** One worker takes batch b alone, up to its row i. */
  lemma {:induction false} ServeUntilRow(c: Config, s: State, b: nat, st: Stage, k: Key, i: nat)
    returns (steps: seq<Step>, t: State)
    requires Serving(c, s, {}, b, st, k) && i < |c.batches[b].data.rows|
    requires Rank(c, b, st) >= Rank(c, b, Merging(0, i))
    ensures Exec(c, s, steps) == At(t) && Serving(c, t, {}, b, Merging(0, i), k)
    decreases Rank(c, b, st)
  {
    if st == Merging(0, i) {
      return [], s;
    }
    ServingStep(c, s, {}, b, st, k);
    var step := NextStep(c, b, st);
    var u := Apply(c, s, step);
    var rest;
    rest, t := ServeUntilRow(c, u, b, u.stage[b], k, i);
    steps := [step] + rest;
    assert steps[1..] == rest;
  }

  /** A projected row that is too long overruns the buffer it is copied to. */
  lemma LongRowOverruns(c: Config, b: nat, i: nat) returns (steps: seq<Step>)
    requires c.workers > 0 && b < |c.batches| && i < |c.batches[b].data.rows| && !ProjectedFits(c, b, i)
    ensures Exec(c, Init(c), steps).At? && !Within(c, Exec(c, Init(c), steps).state)
  {
    var k, step := KeyOf(c, b), MergeRow(0);
    InitStruct(c);
    SumBlocksNone(c, |c.batches|);
    var first, s := ServeUntilRow(c, Init(c), b, NotSent, k, i);
    ServingEnabled(c, s, {}, b, Merging(0, i), k);
    var t := Apply(c, s, step);
    AppendLength(Lookup(s.workers[0].buffers, k), ProjectedRow(c, b, i));
    AppendLength(EMPTY, ProjectedRow(c, b, i));
    assert k in t.workers[0].buffers && Length(t.workers[0].buffers[k]) > c.bufferSize;
    ExecConcat(c, Init(c), first, [step]);
    assert [step][1..] == [];
    steps := first + [step];
  }

  /** No run overruns a merge buffer if and only if every projected row fits an empty one. */
  lemma MergeBuffersExactly(c: Config)
    requires c.workers > 0
    ensures AlwaysWithin(c) <==> MergeRowsFit(c)
  {
    if MergeRowsFit(c) {
      forall steps: seq<Step> | Exec(c, Init(c), steps).At? ensures Within(c, Exec(c, Init(c), steps).state) {
        RunWithin(c, Init(c), steps);
      }
    } else {
      var b, i :| 0 <= b < |c.batches| && 0 <= i < |c.batches[b].data.rows| && !ProjectedFits(c, b, i);
      var steps := LongRowOverruns(c, b, i);
    }
  }
}
