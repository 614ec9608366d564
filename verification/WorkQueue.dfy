/** The queue between the stages (internal_queue.h): producers push under a mutex and notify one
    waiter after unlocking, and only when the queue was empty; consumers wait while it is empty.
    Each stretch of code that holds the mutex is one step, and so is a notification. */
module WorkQueue {
  import opened Sequences

  /** A consumer inside wait(), or anywhere else: about to lock, or busy with an earlier item. */
  datatype Consumer = Ready | Waiting

  /** pending: producers that still have to call notify_one. */
  datatype State<T> = State(queue: seq<T>, consumers: seq<Consumer>, pending: nat, popped: seq<T>)

  datatype Step<T> =
    | Push(item: T)
    | Notify(c: nat)
    | Take(c: nat)
    | SpuriousWake(c: nat)

  function Init<T>(n: nat): State<T> {
    State([], seq(n, (i: nat) => Ready), 0, [])
  }

  predicate NobodyWaits(consumers: seq<Consumer>) {
    forall c :: 0 <= c < |consumers| ==> consumers[c].Ready?
  }

  /** notify_one wakes some waiting consumer, or nobody when nobody waits. */
  predicate Enabled<T>(s: State<T>, step: Step<T>) {
    match step
    case Push(_) => true
    case Notify(c) => s.pending > 0 && (NobodyWaits(s.consumers) || (c < |s.consumers| && s.consumers[c].Waiting?))
    case Take(c) => c < |s.consumers| && s.consumers[c].Ready?
    case SpuriousWake(c) => c < |s.consumers| && s.consumers[c].Waiting?
  }

  function Apply<T>(s: State<T>, step: Step<T>): State<T>
    requires Enabled(s, step)
  {
    match step
    case Push(item) => s.(queue := s.queue + [item], pending := if s.queue == [] then s.pending + 1 else s.pending)
    case Notify(c) =>
      if NobodyWaits(s.consumers) then s.(pending := s.pending - 1)
      else s.(pending := s.pending - 1, consumers := s.consumers[c := Ready])
    case Take(c) =>
      if s.queue == [] then s.(consumers := s.consumers[c := Waiting])
      else s.(queue := s.queue[1..], popped := s.popped + [s.queue[0]])
    case SpuriousWake(c) => s.(consumers := s.consumers[c := Ready])
  }

  datatype Outcome<T> = Stuck | At(state: State<T>)

  /** The state after the first k steps of a schedule. */
  function Run<T>(s: State<T>, steps: seq<Step<T>>, k: nat): Outcome<T>
    requires k <= |steps|
  {
    if k == 0 then At(s) else
      match Run(s, steps, k - 1)
      case Stuck => Stuck
      case At(t) => if Enabled(t, steps[k - 1]) then At(Apply(t, steps[k - 1])) else Stuck
  }

  /** The items pushed by the first k steps. */
  function Pushed<T>(steps: seq<Step<T>>, k: nat): seq<T>
    requires k <= |steps|
  {
    if k == 0 then []
    else if steps[k - 1].Push? then Cat(Pushed(steps, k - 1), [steps[k - 1].item])
    else Pushed(steps, k - 1)
  }

  // ---------------------------------------------------------------- order

  lemma StepOrder<T>(s: State<T>, step: Step<T>)
    requires Enabled(s, step)
    ensures var t := Apply(s, step);
      t.popped + t.queue == if step.Push? then s.popped + s.queue + [step.item] else s.popped + s.queue
  {
    if step.Push? {
      assert s.popped + (s.queue + [step.item]) == s.popped + s.queue + [step.item];
    } else if step.Take? && s.queue != [] {
      assert s.queue == [s.queue[0]] + s.queue[1..];
      assert s.popped + [s.queue[0]] + s.queue[1..] == s.popped + ([s.queue[0]] + s.queue[1..]);
    }
  }

  /** Under every schedule the items leave in the order of the pushes, each exactly once. */
  lemma {:induction false} FirstInFirstOut<T>(n: nat, steps: seq<Step<T>>, k: nat)
    requires k <= |steps| && Run(Init(n), steps, k).At?
    ensures var t := Run(Init(n), steps, k).state; t.popped + t.queue == Pushed(steps, k)
    decreases k
  {
    if k > 0 {
      FirstInFirstOut(n, steps, k - 1);
      StepOrder(Run(Init(n), steps, k - 1).state, steps[k - 1]);
      if steps[k - 1].Push? {
        CatIsConcat(Pushed(steps, k - 1), [steps[k - 1].item]);
      }
    }
  }

  // ---------------------------------------------------------------- no lost wake-up

  /** Work in the queue always has somebody on the way to it. */
  predicate Attended<T>(s: State<T>) {
    s.queue != [] && s.consumers != [] ==> s.pending > 0 || exists c :: 0 <= c < |s.consumers| && s.consumers[c].Ready?
  }

  lemma StepAttended<T>(s: State<T>, step: Step<T>)
    requires Attended(s) && Enabled(s, step)
    ensures Attended(Apply(s, step)) && |Apply(s, step).consumers| == |s.consumers|
  {
    var t := Apply(s, step);
    match step {
      case Push(_) => assert t.consumers == s.consumers;
      case Notify(c) => assert s.consumers == [] || t.consumers[if NobodyWaits(s.consumers) then 0 else c].Ready?;
      case Take(c) => assert t.queue != [] ==> t.consumers[c].Ready?;
      case SpuriousWake(c) => assert t.consumers[c].Ready?;
    }
  }

  lemma {:induction false} RunAttended<T>(s: State<T>, steps: seq<Step<T>>, k: nat)
    requires Attended(s) && k <= |steps| && Run(s, steps, k).At?
    ensures Attended(Run(s, steps, k).state) && |Run(s, steps, k).state.consumers| == |s.consumers|
    decreases k
  {
    if k > 0 {
      RunAttended(s, steps, k - 1);
      StepAttended(Run(s, steps, k - 1).state, steps[k - 1]);
    }
  }

  /** Although only the push into an empty queue notifies. */
  lemma NoLostWakeUp<T>(n: nat, steps: seq<Step<T>>)
    requires Run(Init(n), steps, |steps|).At?
    ensures Attended(Run(Init(n), steps, |steps|).state) && |Run(Init(n), steps, |steps|).state.consumers| == n
  {
    RunAttended(Init(n), steps, |steps|);
  }

  lemma {:induction false} RunConcat<T>(s: State<T>, a: seq<Step<T>>, b: seq<Step<T>>, k: nat)
    requires k <= |b| && Run(s, a, |a|).At?
    ensures Run(s, a + b, |a| + k) == Run(Run(s, a, |a|).state, b, k)
    decreases k
  {
    if k == 0 {
      RunPrefix(s, a, b, |a|);
    } else {
      RunConcat(s, a, b, k - 1);
      assert (a + b)[|a| + k - 1] == b[k - 1];
    }
  }

  lemma {:induction false} RunPrefix<T>(s: State<T>, a: seq<Step<T>>, b: seq<Step<T>>, k: nat)
    requires k <= |a|
    ensures Run(s, a + b, k) == Run(s, a, k)
    decreases k
  {
    if k > 0 {
      RunPrefix(s, a, b, k - 1);
    }
  }

  /** From an attended state, the threads already there can get the next item out: no new push and
      no spurious wake-up is needed. */
  lemma CanTake<T>(s: State<T>) returns (steps: seq<Step<T>>)
    requires Attended(s) && s.queue != [] && s.consumers != []
    ensures forall i :: 0 <= i < |steps| ==> steps[i].Notify? || steps[i].Take?
    ensures Run(s, steps, |steps|).At?
    ensures var t := Run(s, steps, |steps|).state;
      && t.queue == s.queue[1..] && |t.consumers| == |s.consumers|
      && exists c :: 0 <= c < |t.consumers| && t.consumers[c].Ready?
  {
    if c :| 0 <= c < |s.consumers| && s.consumers[c].Ready? {
      steps := [Take(c)];
      assert Run(s, steps, 0) == At(s);
      assert Run(s, steps, 1) == At(Apply(s, Take(c)));
      assert Apply(s, Take(c)).consumers[c].Ready?;
    } else {
      assert s.consumers[0].Waiting?;
      var t := Apply(s, Notify(0));
      steps := [Notify(0), Take(0)];
      assert Run(s, steps, 0) == At(s);
      assert Run(s, steps, 1) == At(t);
      assert t.consumers[0].Ready?;
      assert Run(s, steps, 2) == At(Apply(t, Take(0)));
    }
  }

  /** So no reachable state is a deadlock: they can empty the whole queue. */
  lemma {:induction false} CanDrain<T>(s: State<T>) returns (steps: seq<Step<T>>)
    requires Attended(s) && s.consumers != []
    ensures forall i :: 0 <= i < |steps| ==> steps[i].Notify? || steps[i].Take?
    ensures Run(s, steps, |steps|).At? && Run(s, steps, |steps|).state.queue == []
    decreases |s.queue|
  {
    if s.queue == [] {
      steps := [];
    } else {
      var first := CanTake(s);
      var t := Run(s, first, |first|).state;
      var rest := CanDrain(t);
      RunConcat(s, first, rest, |rest|);
      steps := first + rest;
    }
  }

  /** A step of the threads already there: no new push, no spurious wake-up. */
  predicate OfThreads<T>(step: Step<T>) {
    step.Notify? || step.Take?
  }

  function ReadyCount(consumers: seq<Consumer>, n: nat): nat
    requires n <= |consumers|
  {
    if n == 0 then 0 else ReadyCount(consumers, n - 1) + (if consumers[n - 1].Ready? then 1 else 0)
  }

  lemma {:induction false} ReadyUpdate(consumers: seq<Consumer>, c: nat, x: Consumer, n: nat)
    requires c < |consumers| && n <= |consumers|
    ensures ReadyCount(consumers[c := x], n) == ReadyCount(consumers, n)
      + (if c < n then (if x.Ready? then 1 else 0) - (if consumers[c].Ready? then 1 else 0) else 0)
    decreases n
  {
    if n > 0 {
      ReadyUpdate(consumers, c, x, n - 1);
    }
  }

  /** What the threads can still do: take the items, give the notifications, fall asleep. */
  function Potential<T>(s: State<T>): nat {
    2 * |s.queue| + 2 * s.pending + ReadyCount(s.consumers, |s.consumers|)
  }

  lemma PotentialFalls<T>(s: State<T>, step: Step<T>)
    requires Enabled(s, step) && OfThreads(step)
    ensures Potential(Apply(s, step)) < Potential(s)
  {
    var n := |s.consumers|;
    if step.Take? {
      if s.queue == [] {
        ReadyUpdate(s.consumers, step.c, Waiting, n);
      }
    } else if !NobodyWaits(s.consumers) {
      ReadyUpdate(s.consumers, step.c, Ready, n);
    }
  }

  /** Every run of such steps is finite, whatever the scheduler does. */
  lemma {:induction false} RunsAreFinite<T>(s: State<T>, steps: seq<Step<T>>, k: nat)
    requires k <= |steps| && Run(s, steps, k).At? && forall i :: 0 <= i < k ==> OfThreads(steps[i])
    ensures k + Potential(Run(s, steps, k).state) <= Potential(s)
    decreases k
  {
    if k > 0 {
      RunsAreFinite(s, steps, k - 1);
      PotentialFalls(Run(s, steps, k - 1).state, steps[k - 1]);
    }
  }

  /** None of the threads has anything left to do. */
  ghost predicate Stopped<T(!new)>(s: State<T>) {
    forall step: Step<T> :: OfThreads(step) ==> !Enabled(s, step)
  }

  /** Then the queue is empty. */
  lemma StoppedMeansEmpty<T(!new)>(s: State<T>)
    requires Attended(s) && s.consumers != [] && Stopped(s)
    ensures s.queue == []
  {
    if c :| 0 <= c < |s.consumers| && s.consumers[c].Ready? {
      var step: Step<T> := Take(c);
      assert OfThreads(step) && Enabled(s, step);
    } else if s.pending > 0 {
      assert s.consumers[0].Waiting?;
      var step: Step<T> := Notify(0);
      assert OfThreads(step) && Enabled(s, step);
    }
  }

  /** From every reachable state: if no more is pushed, every way of scheduling the threads comes to
      an end, and then nothing is left in the queue. */
  lemma EveryRunDrains<T(!new)>(n: nat, steps: seq<Step<T>>, s: State<T>, more: seq<Step<T>>, t: State<T>)
    requires n > 0 && Run(Init(n), steps, |steps|) == At(s)
    requires Run(s, more, |more|) == At(t) && forall i :: 0 <= i < |more| ==> OfThreads(more[i])
    ensures |more| <= Potential(s)
    ensures Stopped(t) ==> t.queue == []
  {
    NoLostWakeUp(n, steps);
    RunAttended(s, more, |more|);
    RunsAreFinite(s, more, |more|);
    if Stopped(t) {
      StoppedMeansEmpty(t);
    }
  }

  /** What one notification per empty queue does not give: with two consumers asleep and two
      pushes, one of them stays asleep beside an item. */
  lemma SleepsBesideWork<T>(a: T, b: T) returns (steps: seq<Step<T>>)
    ensures Run(Init(2), steps, |steps|).At?
    ensures var t := Run(Init(2), steps, |steps|).state;
      t.queue == [b] && t.pending == 0 && t.consumers == [Ready, Waiting]
  {
    var s: State<T> := Init(2);
    steps := [Take(0), Take(1), Push(a), Push(b), Notify(0), Take(0)];
    assert Run(s, steps, 0) == At(s);
    assert Run(s, steps, 1) == At(State([], [Waiting, Ready], 0, []));
    assert Run(s, steps, 2) == At(State([], [Waiting, Waiting], 0, []));
    assert Run(s, steps, 3) == At(State([a], [Waiting, Waiting], 1, []));
    assert Run(s, steps, 4) == At(State([a, b], [Waiting, Waiting], 1, []));
    var t := State([a, b], [Waiting, Waiting], 1, []);
    assert t.consumers[0].Waiting?;
    assert Run(s, steps, 5) == At(State([a, b], [Ready, Waiting], 0, []));
    assert Run(s, steps, 6) == At(State([b], [Ready, Waiting], 0, [a]));
  }

  // ---------------------------------------------------------------- the class

  datatype Option<T> = None | Some(value: T)

  /** The queue itself; `state` is the protocol state its methods step through. */
  class Queue<T> {
    var work: seq<T>
    ghost var state: State<T>

    ghost predicate Valid()
      reads this
    {
      work == state.queue
    }

    constructor (ghost consumers: nat)
      ensures Valid() && state == Init(consumers)
    {
      work := [];
      state := Init(consumers);
    }

    /** push_work up to the unlock; the caller notifies when the queue was empty. */
    method PushWork(item: T) returns (wasEmpty: bool)
      requires Valid()
      modifies this
      ensures Valid() && state == Apply(old(state), Push(item)) && work == old(work) + [item]
      ensures state.pending == old(state.pending) + if wasEmpty then 1 else 0
    {
      wasEmpty := |work| == 0;
      work := work + [item];
      state := Apply(state, Push(item));
    }

    /** One round of wait_and_pop under the mutex: the front item, or off to wait. */
    method TryPop(ghost c: nat) returns (item: Option<T>)
      requires Valid() && Enabled(state, Take(c))
      modifies this
      ensures Valid() && state == Apply(old(state), Take(c))
      ensures old(work) == [] ==> item == None && work == [] && state.consumers[c].Waiting?
      ensures old(work) != [] ==> item == Some(old(work)[0]) && work == old(work)[1..]
    {
      if |work| == 0 {
        item := None;
      } else {
        item := Some(work[0]);
        work := work[1..];
      }
      state := Apply(state, Take(c));
    }
  }
}
