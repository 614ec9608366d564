/** The projection layer (projection.cc): any number of workers, each with its own merge
    buffers, share one countdown per snippet. The countdown decides when every worker's buffer
    for that snippet is handed to the return layer.

    A schedule is a sequence of atomic steps: one arrival, or one mutex-protected body or one
    row append of one worker. */
module Projection {
  import opened RowData

  type Key = string

  datatype Batch = Batch(key: Key, data: Contents)

  /** What is given: the workers, the buffer size, every snippet's csd_block_count, the
      batches that will arrive (in any order) and what a projected row looks like. */
  datatype Config = Config(
    workers: nat,
    bufferSize: nat,
    total: Key -> int,
    batches: seq<Batch>,
    project: (Key, Row) -> Row)

  /** Where a batch is. From Popped to Summed the worker w is inside `projectioning`. */
  datatype Stage =
    | NotSent
    | Queued
    | Popped(w: nat)
    | Registered(w: nat)
    | Merging(w: nat, next: nat)
    | Summed(w: nat)
    | Counted

  datatype Job = NoJob | Job(batch: nat)
  datatype Worker = Worker(job: Job, buffers: map<Key, Contents>)

  /** One call of `enqueue_return`; `last` is the flag of the release loop. */
  datatype Returned = Returned(key: Key, data: Contents, last: bool)

  datatype State = State(
    stage: seq<Stage>,
    queue: seq<nat>,
    workers: seq<Worker>,
    counts: map<Key, int>,
    returned: seq<Returned>)

  datatype Step =
    | Arrive(b: nat)
    | Pop(w: nat)
    | MakeBlockCountMap(w: nat)
    | CheckIdBuffer(w: nat)
    | MergeRow(w: nat)
    | AddCounts(w: nat)
    | CountDown(w: nat)

  function Init(c: Config): State {
    State(seq(|c.batches|, i => NotSent), [], seq(c.workers, i => Worker(NoJob, map[])), map[], [])
  }

  // ---------------------------------------------------------------- the steps

  predicate Shape(c: Config, s: State) {
    |s.stage| == |c.batches| && |s.workers| == c.workers
  }

  predicate Holds(c: Config, s: State, w: nat) {
    && Shape(c, s) && w < c.workers
    && s.workers[w].job.Job? && s.workers[w].job.batch < |c.batches|
  }

  function BatchOf(c: Config, s: State, w: nat): nat
    requires Holds(c, s, w)
  {
    s.workers[w].job.batch
  }

  function KeyOf(c: Config, b: nat): Key
    requires b < |c.batches|
  {
    c.batches[b].key
  }

  predicate Enabled(c: Config, s: State, step: Step) {
    Shape(c, s) &&
    match step
    case Arrive(b) => b < |c.batches| && s.stage[b] == NotSent
    case Pop(w) => w < c.workers && s.workers[w].job == NoJob && s.queue != [] && s.queue[0] < |c.batches|
    case MakeBlockCountMap(w) => Holds(c, s, w) && s.stage[BatchOf(c, s, w)] == Popped(w)
    case CheckIdBuffer(w) => Holds(c, s, w) && s.stage[BatchOf(c, s, w)] == Registered(w)
    case MergeRow(w) =>
      Holds(c, s, w) && var b := BatchOf(c, s, w);
      s.stage[b].Merging? && s.stage[b].w == w && s.stage[b].next < |c.batches[b].data.rows|
    case AddCounts(w) =>
      Holds(c, s, w) && var b := BatchOf(c, s, w);
      s.stage[b].Merging? && s.stage[b].w == w && s.stage[b].next >= |c.batches[b].data.rows|
    case CountDown(w) => Holds(c, s, w) && s.stage[BatchOf(c, s, w)] == Summed(w)
  }

  /** `id_buffer_map[key]`: a missing key reads as a fresh, empty result. */
  function Lookup(buffers: map<Key, Contents>, k: Key): Contents {
    if k in buffers then buffers[k] else EMPTY
  }

  function SetBuffer(x: Worker, k: Key, d: Contents): Worker {
    x.(buffers := x.buffers[k := d])
  }

  /** data_length */
  function Length(d: Contents): nat {
    |Flatten(d.rows)|
  }

  predicate Full(c: Config, d: Contents, r: Row) {
    Length(d) + |r| > c.bufferSize
  }

  function AddBlockCounts(d: Contents, e: Contents): Contents {
    d.(blockCount := d.blockCount + e.blockCount,
       scannedRows := d.scannedRows + e.scannedRows,
       filteredRows := d.filteredRows + e.filteredRows)
  }

  function ProjectedRow(c: Config, b: nat, i: nat): Row
    requires b < |c.batches| && i < |c.batches[b].data.rows|
  {
    c.project(c.batches[b].key, c.batches[b].data.rows[i])
  }

  /** The release loop: every worker holding the key returns its buffer, the first one flagged. */
  function ReleaseLog(ws: seq<Worker>, k: Key, flag: bool): seq<Returned> {
    if ws == [] then []
    else if k in ws[0].buffers then
      [Returned(k, ws[0].buffers[k], flag)] + ReleaseLog(ws[1..], k, false)
    else ReleaseLog(ws[1..], k, flag)
  }

  function DropKey(ws: seq<Worker>, k: Key): seq<Worker> {
    seq(|ws|, i requires 0 <= i < |ws| => ws[i].(buffers := ws[i].buffers - {k}))
  }

  function Release(s: State, k: Key): State {
    s.(returned := s.returned + ReleaseLog(s.workers, k, true),
       workers := DropKey(s.workers, k),
       counts := s.counts - {k})
  }

  function CountDownKey(s: State, k: Key, blocks: int): State {
    if k !in s.counts then s
    else if s.counts[k] - blocks == 0 then Release(s, k)
    else s.(counts := s.counts[k := s.counts[k] - blocks])
  }

  function MergeRowInto(c: Config, s: State, w: nat, k: Key, r: Row): State
    requires w < |s.workers|
  {
    var d := Lookup(s.workers[w].buffers, k);
    if Full(c, d, r) then
      s.(returned := s.returned + [Returned(k, d, false)],
         workers := s.workers[w := SetBuffer(s.workers[w], k, AppendRow(EMPTY, r))])
    else
      s.(workers := s.workers[w := SetBuffer(s.workers[w], k, AppendRow(d, r))])
  }

  function Apply(c: Config, s: State, step: Step): State
    requires Enabled(c, s, step)
  {
    match step
    case Arrive(b) => s.(stage := s.stage[b := Queued], queue := s.queue + [b])
    case Pop(w) =>
      s.(queue := s.queue[1..],
         workers := s.workers[w := s.workers[w].(job := Job(s.queue[0]))],
         stage := s.stage[s.queue[0] := Popped(w)])
    case MakeBlockCountMap(w) =>
      var b := BatchOf(c, s, w);
      var k := KeyOf(c, b);
      s.(stage := s.stage[b := Registered(w)],
         counts := if k in s.counts then s.counts else s.counts[k := c.total(k)])
    case CheckIdBuffer(w) =>
      var b := BatchOf(c, s, w);
      var k := KeyOf(c, b);
      s.(stage := s.stage[b := Merging(w, 0)],
         workers := s.workers[w := SetBuffer(s.workers[w], k, Lookup(s.workers[w].buffers, k))])
    case MergeRow(w) =>
      var b := BatchOf(c, s, w);
      var n := s.stage[b].next;
      MergeRowInto(c, s, w, KeyOf(c, b), ProjectedRow(c, b, n)).(stage := s.stage[b := Merging(w, n + 1)])
    case AddCounts(w) =>
      var b := BatchOf(c, s, w);
      var k := KeyOf(c, b);
      var d := AddBlockCounts(Lookup(s.workers[w].buffers, k), c.batches[b].data);
      s.(stage := s.stage[b := Summed(w)], workers := s.workers[w := SetBuffer(s.workers[w], k, d)])
    case CountDown(w) =>
      var b := BatchOf(c, s, w);
      var t := s.(stage := s.stage[b := Counted], workers := s.workers[w := s.workers[w].(job := NoJob)]);
      CountDownKey(t, KeyOf(c, b), c.batches[b].data.blockCount)
  }

  datatype Outcome = Stuck | At(state: State)

  /** Run a schedule; Stuck when one of its steps is not possible. */
  function Exec(c: Config, s: State, steps: seq<Step>): Outcome
    decreases |steps|
  {
    if steps == [] then At(s)
    else if Enabled(c, s, steps[0]) then Exec(c, Apply(c, s, steps[0]), steps[1..])
    else Stuck
  }

  lemma {:induction false} ExecConcat(c: Config, s: State, a: seq<Step>, b: seq<Step>)
    requires Exec(c, s, a).At?
    ensures Exec(c, s, a + b) == Exec(c, Exec(c, s, a).state, b)
    decreases |a|
  {
    if a == [] {
      assert a + b == b;
    } else {
      assert (a + b)[0] == a[0] && (a + b)[1..] == a[1..] + b;
      ExecConcat(c, Apply(c, s, a[0]), a[1..], b);
    }
  }
}
