/** The projection layer as the object the source has: byte buffers and maps updated in place,
    one method per atomic body. Each method is proved to be one step of the protocol. */
module ProjectionLayer {
  import opened RowData
  import opened Projection
  import opened ProjectionSafety
  import opened ProjectionRuns

  /** What the filter stage hands over: the snippet's key and the batch as bytes. */
  datatype CsdResult = CsdResult(key: Key, data: Data)

  /** Where a worker is: waiting for a batch, or inside `projectioning` with its loop index. */
  datatype Local = Idle | Running(result: CsdResult, row: nat)

  function ResultOf(c: Config, b: nat): CsdResult
    requires b < |c.batches|
  {
    CsdResult(c.batches[b].key, SealedLayout(c.batches[b].data))
  }

  /** The queue as bytes is that of the protocol. */
  predicate QueueMirrors(c: Config, queue: seq<CsdResult>, q: seq<nat>) {
    |queue| == |q| && forall i :: 0 <= i < |q| ==> q[i] < |c.batches| && queue[i] == ResultOf(c, q[i])
  }

  /** A worker with a job has that batch in its local variable, and the index of its next row. */
  predicate LocalMirrors(c: Config, local: Local, x: Worker, stage: seq<Stage>)
    requires |stage| == |c.batches|
  {
    match x.job
    case NoJob => local == Idle
    case Job(b) =>
      && b < |c.batches| && local.Running? && local.result == ResultOf(c, b)
      && (stage[b].Merging? ==> local.row == stage[b].next)
  }

  predicate LocalsMirror(c: Config, locals: seq<Local>, s: State)
    requires Shape(c, s)
  {
    |locals| == c.workers && forall w :: 0 <= w < c.workers ==> LocalMirrors(c, locals[w], s.workers[w], s.stage)
  }

  /** One call of `enqueue_return` as bytes. */
  datatype Packet = Packet(key: Key, data: Data, last: bool)

  function Bytes(buffers: map<Key, Contents>): map<Key, Data> {
    map k | k in buffers :: Layout(buffers[k])
  }

  /** The merge buffers as bytes are those of the protocol. */
  predicate Mirrors(mb: seq<map<Key, Data>>, ws: seq<Worker>) {
    |mb| == |ws| && forall w :: 0 <= w < |mb| ==> mb[w] == Bytes(ws[w].buffers)
  }

  lemma MirrorsSet(mb: seq<map<Key, Data>>, ws: seq<Worker>, w: nat, k: Key, d: Contents)
    requires Mirrors(mb, ws) && w < |ws|
    ensures Mirrors(mb[w := mb[w][k := Layout(d)]], ws[w := SetBuffer(ws[w], k, d)])
  {
    assert Bytes(ws[w].buffers[k := d]) == Bytes(ws[w].buffers)[k := Layout(d)];
  }

  function Packets(log: seq<Returned>): seq<Packet> {
    seq(|log|, i requires 0 <= i < |log| => Packet(log[i].key, Layout(log[i].data), log[i].last))
  }

  lemma PacketsConcat(a: seq<Returned>, b: seq<Returned>)
    ensures Packets(a + b) == Packets(a) + Packets(b)
  {
  }

  // ---------------------------------------------------------------- queue and local variables

  /** The queue and the workers' local variables, which only the projection layer itself sees. */
  datatype Front = Front(queue: seq<CsdResult>, locals: seq<Local>)

  function SetLocal(f: Front, w: nat, x: Local): Front {
    if w < |f.locals| then f.(locals := f.locals[w := x]) else f
  }

  function LocalAt(f: Front, w: nat): Local {
    if w < |f.locals| then f.locals[w] else Idle
  }

  function NextFront(c: Config, f: Front, step: Step): Front {
    match step
    case Arrive(b) => if b < |c.batches| then f.(queue := f.queue + [ResultOf(c, b)]) else f
    case Pop(w) => if f.queue == [] then f else SetLocal(f.(queue := f.queue[1..]), w, Running(f.queue[0], 0))
    case CheckIdBuffer(w) => if LocalAt(f, w).Running? then SetLocal(f, w, LocalAt(f, w).(row := 0)) else f
    case MergeRow(w) =>
      if LocalAt(f, w).Running? then SetLocal(f, w, LocalAt(f, w).(row := LocalAt(f, w).row + 1)) else f
    case CountDown(w) => SetLocal(f, w, Idle)
    case _ => f
  }

  /** Both after a schedule. */
  function FrontAfter(c: Config, steps: seq<Step>): Front {
    if steps == [] then Front([], seq(c.workers, i => Idle))
    else NextFront(c, FrontAfter(c, steps[..|steps| - 1]), steps[|steps| - 1])
  }

  lemma FrontSnoc(c: Config, steps: seq<Step>, step: Step)
    ensures FrontAfter(c, steps + [step]) == NextFront(c, FrontAfter(c, steps), step)
  {
    assert (steps + [step])[..|steps|] == steps;
  }

  lemma ExecSnoc(c: Config, s0: State, steps: seq<Step>, s: State, step: Step)
    requires Exec(c, s0, steps) == At(s) && Enabled(c, s, step)
    ensures Exec(c, s0, steps + [step]) == At(Apply(c, s, step))
  {
    ExecConcat(c, s0, steps, [step]);
    assert [step][1..] == [];
    assert Exec(c, Apply(c, s, step), []) == At(Apply(c, s, step));
  }

  /** A run of a schedule is a run of all but its last step, and that step. */
  lemma {:induction false} ExecLast(c: Config, s0: State, steps: seq<Step>) returns (s: State)
    requires steps != [] && Exec(c, s0, steps).At?
    ensures var n := |steps| - 1;
      && Exec(c, s0, steps[..n]) == At(s) && Enabled(c, s, steps[n])
      && Exec(c, s0, steps) == At(Apply(c, s, steps[n]))
    decreases |steps|
  {
    if |steps| == 1 {
      s := s0;
      assert steps[..0] == [] && steps[1..] == [];
    } else {
      var n := |steps| - 1;
      s := ExecLast(c, Apply(c, s0, steps[0]), steps[1..]);
      assert steps[..n][0] == steps[0] && steps[..n][1..] == steps[1..][..n - 1];
    }
  }

  lemma WorkerKept(c: Config, s: State, step: Step, w: nat)
    requires Struct(c, s) && Enabled(c, s, step) && w < c.workers
    requires step.Arrive? || step.w != w
    ensures var t := Apply(c, s, step);
      && Shape(c, t) && t.workers[w].job == s.workers[w].job
      && (s.workers[w].job.Job? ==> s.workers[w].job.batch < |c.batches|)
      && (s.workers[w].job.Job? ==> t.stage[s.workers[w].job.batch] == s.stage[s.workers[w].job.batch])
  {
  }

  lemma OwnLocal(c: Config, s: State, f: Front, step: Step)
    requires Struct(c, s) && Enabled(c, s, step) && QueueMirrors(c, f.queue, s.queue) && LocalsMirror(c, f.locals, s)
    requires !step.Arrive?
    ensures var t := Apply(c, s, step);
      && Shape(c, t) && step.w < c.workers && |NextFront(c, f, step).locals| == c.workers
      && LocalMirrors(c, NextFront(c, f, step).locals[step.w], t.workers[step.w], t.stage)
  {
    assert LocalMirrors(c, f.locals[step.w], s.workers[step.w], s.stage);
  }

  lemma LocalsNext(c: Config, s: State, f: Front, step: Step)
    requires Struct(c, s) && Enabled(c, s, step) && QueueMirrors(c, f.queue, s.queue) && LocalsMirror(c, f.locals, s)
    ensures Shape(c, Apply(c, s, step)) && LocalsMirror(c, NextFront(c, f, step).locals, Apply(c, s, step))
  {
    var t, next := Apply(c, s, step), NextFront(c, f, step).locals;
    StepStruct(c, s, step);
    forall w | 0 <= w < c.workers ensures LocalMirrors(c, next[w], t.workers[w], t.stage) {
      if step.Arrive? || step.w != w {
        WorkerKept(c, s, step, w);
        assert LocalMirrors(c, f.locals[w], s.workers[w], s.stage);
      } else {
        OwnLocal(c, s, f, step);
      }
    }
  }

  lemma QueueNext(c: Config, s: State, f: Front, step: Step)
    requires Enabled(c, s, step) && QueueMirrors(c, f.queue, s.queue)
    ensures QueueMirrors(c, NextFront(c, f, step).queue, Apply(c, s, step).queue)
  {
  }

  /** In every reachable state the queue and the local variables hold the bytes of the batches the
      protocol says they hold. */
  lemma {:induction false} FrontMirrors(c: Config, steps: seq<Step>)
    requires Exec(c, Init(c), steps).At?
    ensures var s, f := Exec(c, Init(c), steps).state, FrontAfter(c, steps);
      Struct(c, s) && QueueMirrors(c, f.queue, s.queue) && LocalsMirror(c, f.locals, s)
    decreases |steps|
  {
    if steps == [] {
      InitStruct(c);
    } else {
      var n := |steps| - 1;
      var s := ExecLast(c, Init(c), steps);
      FrontMirrors(c, steps[..n]);
      StepStruct(c, s, steps[n]);
      QueueNext(c, s, FrontAfter(c, steps[..n]), steps[n]);
      LocalsNext(c, s, FrontAfter(c, steps[..n]), steps[n]);
    }
  }

  // ---------------------------------------------------------------- the object

  lemma MergeRowFrame(c: Config, s: State, w: nat)
    requires Enabled(c, s, MergeRow(w))
    ensures Shape(c, Apply(c, s, MergeRow(w))) && Apply(c, s, MergeRow(w)).counts == s.counts
  {
  }

  /** What the object is given. The batches themselves arrive as bytes. */
  datatype Setting = Setting(workers: nat, bufferSize: nat, total: Key -> int, project: (Key, Row) -> Row)

  function SettingOf(c: Config): Setting {
    Setting(c.workers, c.bufferSize, c.total, c.project)
  }

  class Layer {
    ghost const c: Config
    const setting: Setting
    var projectionQueue: seq<CsdResult>
    var locals: seq<Local>
    var blockCountMap: map<Key, int>
    var mergeBuffers: seq<map<Key, Data>>
    var returnQueue: seq<Packet>

    /** The schedule so far, and where it has led. */
    ghost var history: seq<Step>
    ghost var state: State

    ghost predicate Mirrored()
      reads this
    {
      && setting == SettingOf(c) && Shape(c, state)
      && blockCountMap == state.counts
      && Mirrors(mergeBuffers, state.workers)
      && returnQueue == Packets(state.returned)
    }

    ghost predicate Valid()
      reads this
    {
      && Mirrored()
      && Exec(c, Init(c), history) == At(state)
      && Front(projectionQueue, locals) == FrontAfter(c, history)
    }

    /** The step just done goes on record. */
    ghost method Record(step: Step)
      requires Exec(c, Init(c), history) == At(state) && Enabled(c, state, step)
      modifies this`history, this`state
      ensures history == old(history) + [step] && state == Apply(c, old(state), step)
      ensures Exec(c, Init(c), history) == At(state)
      ensures FrontAfter(c, history) == NextFront(c, FrontAfter(c, old(history)), step)
    {
      ExecSnoc(c, Init(c), history, state, step);
      FrontSnoc(c, history, step);
      history, state := history + [step], Apply(c, state, step);
    }

    constructor (setting: Setting, ghost c: Config)
      requires setting == SettingOf(c)
      ensures this.c == c && history == [] && state == Init(c) && Valid() && returnQueue == []
    {
      this.c := c;
      this.setting := setting;
      projectionQueue := [];
      locals := seq(setting.workers, i => Idle);
      blockCountMap := map[];
      mergeBuffers := seq(setting.workers, i => map[]);
      returnQueue := [];
      history := [];
      state := Init(c);
    }

    /** `enqueue_projection` */
    method EnqueueProjection(ghost b: nat, result: CsdResult)
      requires Valid() && Enabled(c, state, Arrive(b)) && result == ResultOf(c, b)
      modifies this`projectionQueue, this`history, this`state
      ensures Valid() && history == old(history) + [Arrive(b)] && state == Apply(c, old(state), Arrive(b))
    {
      projectionQueue := projectionQueue + [result];
      Record(Arrive(b));
    }

    /** The worker loop takes the next batch. */
    method PopResult(w: nat)
      requires Valid() && Enabled(c, state, Pop(w)) && projectionQueue != [] && w < |locals|
      modifies this`projectionQueue, this`locals, this`history, this`state
      ensures Valid() && history == old(history) + [Pop(w)] && state == Apply(c, old(state), Pop(w))
    {
      locals := locals[w := Running(projectionQueue[0], 0)];
      projectionQueue := projectionQueue[1..];
      Record(Pop(w));
    }

    method MakeBlockCountMap(ghost w: nat, key: Key, csdBlockCount: int)
      requires Valid() && Enabled(c, state, Step.MakeBlockCountMap(w))
      requires key == KeyOf(c, BatchOf(c, state, w)) && csdBlockCount == c.total(key)
      modifies this`blockCountMap, this`history, this`state
      ensures Valid() && history == old(history) + [Step.MakeBlockCountMap(w)]
      ensures state == Apply(c, old(state), Step.MakeBlockCountMap(w))
    {
      if key !in blockCountMap {
        blockCountMap := blockCountMap[key := csdBlockCount];
      }
      Record(Step.MakeBlockCountMap(w));
    }

    method CheckIdBuffer(w: nat, key: Key)
      requires Valid() && Enabled(c, state, Step.CheckIdBuffer(w)) && key == KeyOf(c, BatchOf(c, state, w))
      requires w < |locals| && locals[w].Running?
      modifies this`mergeBuffers, this`locals, this`history, this`state
      ensures Valid() && history == old(history) + [Step.CheckIdBuffer(w)]
      ensures state == Apply(c, old(state), Step.CheckIdBuffer(w))
      ensures locals == old(locals)[w := old(locals)[w].(row := 0)]
    {
      MakeBuffer(w, key);
      locals := locals[w := locals[w].(row := 0)];
      Record(Step.CheckIdBuffer(w));
    }

    method MakeBuffer(w: nat, key: Key)
      requires Mirrored() && w < c.workers
      modifies this`mergeBuffers
      ensures Mirrors(mergeBuffers, state.workers[w := SetBuffer(state.workers[w], key,
                                      Lookup(state.workers[w].buffers, key))])
    {
      MirrorsSet(mergeBuffers, state.workers, w, key, Lookup(state.workers[w].buffers, key));
      if key !in mergeBuffers[w] {
        mergeBuffers := mergeBuffers[w := mergeBuffers[w][key := Layout(EMPTY)]];
      }
    }

    /** A buffer the row does not fit into goes to the return layer. */
    method MakeRoom(key: Key, data: Data, row: Row, ghost d: Contents) returns (rest: Data)
      requires data == Layout(d) && setting == SettingOf(c)
      modifies this`returnQueue
      ensures rest == Layout(if Full(c, d, row) then EMPTY else d)
      ensures returnQueue == old(returnQueue) + if Full(c, d, row) then [Packet(key, data, false)] else []
    {
      rest := data;
      if |data.raw| + |row| > setting.bufferSize {
        returnQueue := returnQueue + [Packet(key, data, false)];
        rest := Layout(EMPTY);
      }
    }

    /** Flush if the row does not fit, then append it. */
    method AppendProjected(w: nat, key: Key, row: Row)
      requires Mirrored() && w < c.workers
      modifies this`mergeBuffers, this`returnQueue
      ensures var t := MergeRowInto(c, state, w, key, row);
        Mirrors(mergeBuffers, t.workers) && returnQueue == Packets(t.returned)
    {
      ghost var d := Lookup(state.workers[w].buffers, key);
      var data := if key in mergeBuffers[w] then mergeBuffers[w][key] else Layout(EMPTY);
      assert data == Layout(d);
      data := MakeRoom(key, data, row, d);
      PacketsConcat(state.returned, [Returned(key, d, false)]);
      ghost var into := if Full(c, d, row) then EMPTY else d;
      AppendLayout(into, row);
      MirrorsSet(mergeBuffers, state.workers, w, key, AppendRow(into, row));
      mergeBuffers := mergeBuffers[w := mergeBuffers[w][key := Append(data, row)]];
    }

    /** Read row i of the batch, project it, merge it. */
    method MergeProjected(w: nat, key: Key, result: Data, i: nat)
      requires Mirrored() && Enabled(c, state, Step.MergeRow(w)) && key == KeyOf(c, BatchOf(c, state, w))
      requires result == SealedLayout(c.batches[BatchOf(c, state, w)].data)
      requires i == state.stage[BatchOf(c, state, w)].next
      modifies this`mergeBuffers, this`returnQueue
      ensures var t := Apply(c, state, Step.MergeRow(w));
        Mirrors(mergeBuffers, t.workers) && returnQueue == Packets(t.returned)
    {
      ReadBack(c.batches[BatchOf(c, state, w)].data, i);
      var row := setting.project(key, RowAt(result, i));
      AppendProjected(w, key, row);
    }

    /** One iteration of the row loop. */
    method MergeRow(w: nat, key: Key, result: Data, i: nat)
      requires Valid() && Enabled(c, state, Step.MergeRow(w)) && key == KeyOf(c, BatchOf(c, state, w))
      requires result == SealedLayout(c.batches[BatchOf(c, state, w)].data)
      requires i == state.stage[BatchOf(c, state, w)].next
      requires w < |locals| && locals[w].Running? && locals[w].row == i
      modifies this`mergeBuffers, this`returnQueue, this`locals, this`history, this`state
      ensures Valid() && history == old(history) + [Step.MergeRow(w)]
      ensures state == Apply(c, old(state), Step.MergeRow(w))
      ensures locals == old(locals)[w := old(locals)[w].(row := i + 1)]
    {
      MergeRowFrame(c, state, w);
      MergeProjected(w, key, result, i);
      locals := locals[w := locals[w].(row := i + 1)];
      Record(Step.MergeRow(w));
    }

    method AddCounts(w: nat, key: Key, result: Data)
      requires Valid() && Enabled(c, state, Step.AddCounts(w)) && key == KeyOf(c, BatchOf(c, state, w))
      requires result == SealedLayout(c.batches[BatchOf(c, state, w)].data)
      modifies this`mergeBuffers, this`history, this`state
      ensures Valid() && history == old(history) + [Step.AddCounts(w)]
      ensures state == Apply(c, old(state), Step.AddCounts(w))
    {
      AddToBuffer(w, key, result, c.batches[BatchOf(c, state, w)].data);
      Record(Step.AddCounts(w));
    }

    method AddToBuffer(w: nat, key: Key, result: Data, ghost x: Contents)
      requires Mirrored() && w < c.workers && result == SealedLayout(x)
      modifies this`mergeBuffers
      ensures Mirrors(mergeBuffers, state.workers[w := SetBuffer(state.workers[w], key,
                                      AddBlockCounts(Lookup(state.workers[w].buffers, key), x))])
    {
      var data := if key in mergeBuffers[w] then mergeBuffers[w][key] else Layout(EMPTY);
      data := data.(blockCount := data.blockCount + result.blockCount,
                    scannedRows := data.scannedRows + result.scannedRows,
                    filteredRows := data.filteredRows + result.filteredRows);
      MirrorsSet(mergeBuffers, state.workers, w, key, AddBlockCounts(Lookup(state.workers[w].buffers, key), x));
      mergeBuffers := mergeBuffers[w := mergeBuffers[w][key := data]];
    }

    /** Count down; at zero hand every worker's buffer to the return layer and forget the key. */
    method BlockCountDownAndReleaseBuffer(w: nat, key: Key, blockCount: int)
      requires Valid() && Enabled(c, state, CountDown(w)) && key == KeyOf(c, BatchOf(c, state, w))
      requires blockCount == c.batches[BatchOf(c, state, w)].data.blockCount && w < |locals|
      modifies this`blockCountMap, this`mergeBuffers, this`returnQueue, this`locals, this`history, this`state
      ensures Valid() && history == old(history) + [CountDown(w)] && state == Apply(c, old(state), CountDown(w))
    {
      ghost var g := Given(c, state, w);
      assert Mirrors(mergeBuffers, g.workers);
      CountDownMaps(g, key, blockCount);
      locals := locals[w := Idle];
      Record(CountDown(w));
    }

    method CountDownMaps(ghost g: State, key: Key, blockCount: int)
      requires Mirrors(mergeBuffers, g.workers) && blockCountMap == g.counts && returnQueue == Packets(g.returned)
      modifies this`blockCountMap, this`mergeBuffers, this`returnQueue
      ensures var t := CountDownKey(g, key, blockCount);
        && Mirrors(mergeBuffers, t.workers) && blockCountMap == t.counts && returnQueue == Packets(t.returned)
    {
      if key in blockCountMap {
        blockCountMap := blockCountMap[key := blockCountMap[key] - blockCount];
        if blockCountMap[key] == 0 {
          ReleaseBuffers(g, key);
          blockCountMap := blockCountMap - {key};
          PacketsConcat(g.returned, ReleaseLog(g.workers, key, true));
        }
      }
    }

    /** The loop over merge_buffer_list_. */
    method ReleaseBuffers(ghost g: State, key: Key)
      requires Mirrors(mergeBuffers, g.workers)
      modifies this`mergeBuffers, this`returnQueue
      ensures returnQueue == old(returnQueue) + Packets(ReleaseLog(g.workers, key, true))
      ensures Mirrors(mergeBuffers, DropKey(g.workers, key))
    {
      var flag := true;
      ghost var ws := g.workers;
      assert ws[..0] == [];
      for i := 0 to |mergeBuffers|
        invariant |mergeBuffers| == |ws|
        invariant flag == (ReleaseLog(ws[..i], key, true) == [])
        invariant returnQueue == old(returnQueue) + Packets(ReleaseLog(ws[..i], key, true))
        invariant forall x :: 0 <= x < i ==> mergeBuffers[x] == Bytes(ws[x].buffers - {key})
        invariant forall x :: i <= x < |mergeBuffers| ==> mergeBuffers[x] == Bytes(ws[x].buffers)
      {
        ReleaseLogSnoc(ws[..i], ws[i], key, true);
        assert ws[..i] + [ws[i]] == ws[..i + 1];
        if key in mergeBuffers[i] {
          returnQueue := returnQueue + [Packet(key, mergeBuffers[i][key], flag)];
          PacketsConcat(ReleaseLog(ws[..i], key, true), [Returned(key, ws[i].buffers[key], flag)]);
          flag := false;
        }
        assert Bytes(ws[i].buffers - {key}) == mergeBuffers[i] - {key};
        mergeBuffers := mergeBuffers[i := mergeBuffers[i] - {key}];
      }
      assert ws[..|mergeBuffers|] == ws;
    }

    /** The row loop of `projectioning`, uninterrupted. */
    method MergeRows(w: nat, ghost b: nat, key: Key, result: Data)
      requires Valid() && Holds(c, state, w) && BatchOf(c, state, w) == b && state.stage[b] == Merging(w, 0)
      requires key == KeyOf(c, b) && result == SealedLayout(c.batches[b].data)
      requires w < |locals| && locals[w].Running? && locals[w].row == 0
      modifies this`mergeBuffers, this`returnQueue, this`locals, this`history, this`state
      ensures Valid() && Holds(c, state, w) && BatchOf(c, state, w) == b && w < |locals|
      ensures state.stage[b] == Merging(w, |c.batches[b].data.rows|)
      ensures history == old(history) + Merges(w, |c.batches[b].data.rows|)
    {
      assert old(history) + Merges(w, 0) == old(history);
      for i := 0 to result.rowCount
        invariant Valid() && history == old(history) + Merges(w, i)
        invariant Holds(c, state, w) && BatchOf(c, state, w) == b && state.stage[b] == Merging(w, i)
        invariant w < |locals| && locals[w].Running? && locals[w].row == i
      {
        MergesSnoc(old(history), w, i);
        MergeRow(w, key, result, i);
      }
    }

    /** `projectioning`, uninterrupted: the worker w that popped batch b does all of it. */
    method Projectioning(w: nat, ghost b: nat, key: Key, csdBlockCount: int, result: Data)
      requires Valid() && Enabled(c, state, Step.MakeBlockCountMap(w)) && BatchOf(c, state, w) == b
      requires key == KeyOf(c, b) && csdBlockCount == c.total(key) && result == SealedLayout(c.batches[b].data)
      requires w < |locals| && locals[w].Running?
      modifies this`blockCountMap, this`mergeBuffers, this`returnQueue, this`locals, this`history, this`state
      ensures Valid() && history == old(history) + Body(c, b, w)
    {
      Begin(w, b, key, csdBlockCount);
      MergeRows(w, b, key, result);
      Finish(w, b, key, result);
      BodyIs(old(history), c, b, w);
    }

    /** The part before the row loop. */
    method Begin(w: nat, ghost b: nat, key: Key, csdBlockCount: int)
      requires Valid() && Enabled(c, state, Step.MakeBlockCountMap(w)) && BatchOf(c, state, w) == b
      requires key == KeyOf(c, b) && csdBlockCount == c.total(key)
      requires w < |locals| && locals[w].Running?
      modifies this`blockCountMap, this`mergeBuffers, this`locals, this`history, this`state
      ensures Valid() && history == old(history) + [Step.MakeBlockCountMap(w)] + [Step.CheckIdBuffer(w)]
      ensures Holds(c, state, w) && BatchOf(c, state, w) == b && state.stage[b] == Merging(w, 0)
      ensures w < |locals| && locals[w].Running? && locals[w].row == 0
    {
      MakeBlockCountMap(w, key, csdBlockCount);
      CheckIdBuffer(w, key);
    }

    /** The part behind the row loop. */
    method Finish(w: nat, ghost b: nat, key: Key, result: Data)
      requires Valid() && Holds(c, state, w) && BatchOf(c, state, w) == b && w < |locals|
      requires state.stage[b] == Merging(w, |c.batches[b].data.rows|)
      requires key == KeyOf(c, b) && result == SealedLayout(c.batches[b].data)
      modifies this`blockCountMap, this`mergeBuffers, this`returnQueue, this`locals, this`history, this`state
      ensures Valid() && history == old(history) + [Step.AddCounts(w)] + [CountDown(w)]
    {
      AddCounts(w, key, result);
      BlockCountDownAndReleaseBuffer(w, key, result.blockCount);
    }

    // -------------------------------------------------------------- any schedule

    /** `results` are the batches of c as bytes. */
    ghost predicate Brings(results: seq<CsdResult>) {
      |results| == |c.batches| && forall b :: 0 <= b < |results| ==> results[b] == ResultOf(c, b)
    }

    /** One step: a batch arrives, or a worker goes on with what it has in its local variables. */
    method Perform(step: Step, results: seq<CsdResult>)
      requires Valid() && Enabled(c, state, step) && Brings(results)
      modifies this
      ensures Valid() && history == old(history) + [step] && state == Apply(c, old(state), step)
    {
      FrontMirrors(c, history);
      match step {
        case Arrive(b) =>
          EnqueueProjection(b, results[b]);
        case Pop(w) =>
          PopResult(w);
        case _ =>
          assert LocalMirrors(c, locals[step.w], state.workers[step.w], state.stage);
          WorkerStep(step, locals[step.w].result, locals[step.w].row);
      }
    }

    method WorkerStep(step: Step, r: CsdResult, row: nat)
      requires Valid() && Enabled(c, state, step) && !step.Arrive? && !step.Pop?
      requires step.w < |locals| && locals[step.w] == Running(r, row) && r == ResultOf(c, BatchOf(c, state, step.w))
      requires step.MergeRow? ==> row == state.stage[BatchOf(c, state, step.w)].next
      modifies this
      ensures Valid() && history == old(history) + [step] && state == Apply(c, old(state), step)
    {
      match step {
        case MakeBlockCountMap(w) => MakeBlockCountMap(w, r.key, setting.total(r.key));
        case CheckIdBuffer(w) => CheckIdBuffer(w, r.key);
        case MergeRow(w) => MergeRow(w, r.key, r.data, row);
        case AddCounts(w) => AddCounts(w, r.key, r.data);
        case CountDown(w) => BlockCountDownAndReleaseBuffer(w, r.key, r.data.blockCount);
      }
    }

    /** Any interleaving the protocol allows: the object goes through it step by step. */
    method Run(steps: seq<Step>, results: seq<CsdResult>)
      requires Valid() && Exec(c, state, steps).At? && Brings(results)
      modifies this
      ensures Valid() && Exec(c, old(state), steps) == At(state)
    {
      ghost var end := Exec(c, state, steps);
      assert steps[0..] == steps;
      for i := 0 to |steps|
        invariant Valid() && Exec(c, state, steps[i..]) == end
      {
        assert steps[i..][0] == steps[i] && steps[i..][1..] == steps[i + 1..];
        Perform(steps[i], results);
      }
      assert steps[|steps|..] == [];
    }
  }

  /** A new layer, the batches of c as bytes, and any schedule: what it has handed to the return layer
      is, byte for byte, what the protocol has returned. */
  method RunSchedule(setting: Setting, results: seq<CsdResult>, steps: seq<Step>, ghost c: Config)
    returns (returned: seq<Packet>)
    requires setting == SettingOf(c) && Exec(c, Init(c), steps).At?
    requires |results| == |c.batches| && forall b :: 0 <= b < |results| ==> results[b] == ResultOf(c, b)
    ensures returned == Packets(Exec(c, Init(c), steps).state.returned)
  {
    var layer := new Layer(setting, c);
    layer.Run(steps, results);
    returned := layer.returnQueue;
  }

  function Merges(w: nat, n: nat): seq<Step> {
    seq(n, x => Step.MergeRow(w))
  }

  /** The steps of one `projectioning` call. */
  function Body(c: Config, b: nat, w: nat): seq<Step>
    requires b < |c.batches|
  {
    [Step.MakeBlockCountMap(w), Step.CheckIdBuffer(w)]
    + Merges(w, |c.batches[b].data.rows|)
    + [Step.AddCounts(w), CountDown(w)]
  }

  lemma MergesSnoc(h: seq<Step>, w: nat, i: nat)
    ensures h + Merges(w, i) + [Step.MergeRow(w)] == h + Merges(w, i + 1)
  {
  }

  lemma BodyIs(h: seq<Step>, c: Config, b: nat, w: nat)
    requires b < |c.batches|
    ensures h + [Step.MakeBlockCountMap(w)] + [Step.CheckIdBuffer(w)] + Merges(w, |c.batches[b].data.rows|)
      + [Step.AddCounts(w)] + [CountDown(w)] == h + Body(c, b, w)
  {
  }

  // ---------------------------------------------------------------- the packets

  /** How many packets of k carry the flag of a release. */
  function FlagCount(ps: seq<Packet>, k: Key): int {
    if ps == [] then 0 else (if ps[0].key == k && ps[0].last then 1 else 0) + FlagCount(ps[1..], k)
  }

  function Slice(raw: seq<Byte>, start: int, end: int): seq<Byte> {
    if 0 <= start <= end <= |raw| then raw[start..end] else []
  }

  /** The rows of a buffer from row i on: each up to the next offset, the last one up to the end. */
  function RowsIn(d: Data, i: nat): seq<Row>
    decreases |d.rowOffset| - i
  {
    if i >= |d.rowOffset| then []
    else
      var end := if i + 1 < |d.rowOffset| then d.rowOffset[i + 1] else |d.raw|;
      [Slice(d.raw, d.rowOffset[i], end)] + RowsIn(d, i + 1)
  }

  /** All rows returned for k, read back from the bytes. */
  function PacketRows(ps: seq<Packet>, k: Key): seq<Row> {
    if ps == [] then [] else (if ps[0].key == k then RowsIn(ps[0].data, 0) else []) + PacketRows(ps[1..], k)
  }

  lemma {:induction false} RowsInLayout(x: Contents, i: nat)
    requires i <= |x.rows|
    ensures RowsIn(Layout(x), i) == x.rows[i..]
    decreases |x.rows| - i
  {
    if i < |x.rows| {
      ReadBack(x, i);
      RowsInLayout(x, i + 1);
      assert x.rows[i..] == [x.rows[i]] + x.rows[i + 1..];
    }
  }

  lemma {:induction false} PacketsAre(log: seq<Returned>, k: Key)
    ensures PacketRows(Packets(log), k) == ReturnedRows(log, k)
    ensures FlagCount(Packets(log), k) == Flags(log, k)
    decreases |log|
  {
    if log != [] {
      assert Packets(log)[1..] == Packets(log[1..]);
      PacketsAre(log[1..], k);
      RowsInLayout(log[0].data, 0);
      assert log[0].data.rows[0..] == log[0].data.rows;
    }
  }

  /** Exactly-once release, read off the bytes handed to the return layer. */
  lemma PacketsReleasedOnce(c: Config, steps: seq<Step>, k: Key)
    requires Exec(c, Init(c), steps).At? && WholeOnly(c, k) && BatchesOf(c, k) != {}
    ensures var s := Exec(c, Init(c), steps).state; var ps := Packets(s.returned);
      && Shape(c, s) && FlagCount(ps, k) == (if CountedSet(c, s.stage, k) == BatchesOf(c, k) then 1 else 0)
      && (FlagCount(ps, k) == 1 ==> multiset(PacketRows(ps, k)) == multiset(ProjectedRows(c, k, |c.batches|)))
  {
    ReleasedRows(c, steps, k);
    PacketsAre(Exec(c, Init(c), steps).state.returned, k);
  }
}
