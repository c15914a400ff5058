/** The worker pool of workerpool.go as a step system: a bounded channel, n workers that each take
    an event, run the handler and come back, and Stop's close, wait, cancel. Runs have one Start,
    before the first step, and one Stop, after the last Submit. */
module WorkerPool {
  /** Events are told apart by their ID. */
  type Event = string

  datatype Worker = Waiting | Handling(event: Event) | Exited

  /** accepted, taken and handled are history: the events Submit took, those workers took off the
      queue, in order, and those whose handler returned, with whether its context was live. */
  datatype Pool = Pool(
    capacity: nat, queue: seq<Event>, workers: seq<Worker>, closed: bool, canceled: bool,
    accepted: seq<Event>, taken: seq<Event>, handled: seq<Event>, handledLive: bool)

  datatype Step =
    | Submit(event: Event)
    | Take(w: nat)
    | Finish(w: nat)
    | ExitDrained(w: nat)
    | ExitCanceled(w: nat)
    | CloseQueue
    | CancelContext

  function Start(workers: nat, capacity: nat): Pool {
    Pool(capacity, [], seq(workers, _ => Waiting), false, false, [], [], [], true)
  }

  predicate AllExited(p: Pool) { forall w | 0 <= w < |p.workers| :: p.workers[w] == Exited }

  /** Submit on a closed channel panics, so it happens only before Stop; wg.Wait lets the context
      be canceled only once every worker is gone. */
  predicate CanStep(p: Pool, s: Step) {
    match s
    case Submit(_) => !p.closed
    case Take(w) => w < |p.workers| && p.workers[w].Waiting? && p.queue != []
    case Finish(w) => w < |p.workers| && p.workers[w].Handling?
    case ExitDrained(w) => w < |p.workers| && p.workers[w].Waiting? && p.queue == [] && p.closed
    case ExitCanceled(w) => w < |p.workers| && p.workers[w].Waiting? && p.canceled
    case CloseQueue => !p.closed
    case CancelContext => p.closed && !p.canceled && AllExited(p)
  }

  function Next(p: Pool, s: Step): Pool
    requires CanStep(p, s)
  {
    match s
    case Submit(e) =>
      if |p.queue| < p.capacity then p.(queue := p.queue + [e], accepted := p.accepted + [e]) else p
    case Take(w) =>
      p.(queue := p.queue[1..], workers := p.workers[w := Handling(p.queue[0])], taken := p.taken + [p.queue[0]])
    case Finish(w) =>
      p.(workers := p.workers[w := Waiting], handled := p.handled + [p.workers[w].event],
         handledLive := p.handledLive && !p.canceled)
    case ExitDrained(w) => p.(workers := p.workers[w := Exited])
    case ExitCanceled(w) => p.(workers := p.workers[w := Exited])
    case CloseQueue => p.(closed := true)
    case CancelContext => p.(canceled := true)
  }

  ghost predicate StepAt(ps: seq<Pool>, steps: seq<Step>, i: nat)
    requires i < |steps| && |ps| == |steps| + 1
  {
    CanStep(ps[i], steps[i]) && ps[i + 1] == Next(ps[i], steps[i])
  }

  /** At least one worker and room for one event: the constructor defaults both. */
  ghost predicate IsRun(workers: nat, capacity: nat, ps: seq<Pool>, steps: seq<Step>) {
    && workers > 0 && capacity > 0
    && |ps| == |steps| + 1 && ps[0] == Start(workers, capacity)
    && forall i | 0 <= i < |steps| :: StepAt(ps, steps, i)
  }

  // ---------------------------------------------------------------- invariant

  function One(w: Worker): multiset<Event> { if w.Handling? then multiset{w.event} else multiset{} }

  function InProgress(workers: seq<Worker>): multiset<Event> {
    if workers == [] then multiset{} else InProgress(workers[..|workers| - 1]) + One(workers[|workers| - 1])
  }

  /** Bag arithmetic: what is added on both sides does not matter. */
  lemma ShiftBags(a: multiset<Event>, b: multiset<Event>, u: multiset<Event>, v: multiset<Event>, more: multiset<Event>)
    requires a + u == b + v
    ensures (a + more) + u == (b + more) + v
  {
    forall e ensures ((a + more) + u)[e] == ((b + more) + v)[e] {
      assert (a + u)[e] == (b + v)[e];
    }
  }

  lemma SwapBags(a: multiset<Event>, u: multiset<Event>, v: multiset<Event>)
    ensures (a + u) + v == (a + v) + u
  {
    forall e ensures ((a + u) + v)[e] == ((a + v) + u)[e] {}
  }

  lemma InProgressLast(workers: seq<Worker>, x: Worker)
    ensures InProgress(workers + [x]) == InProgress(workers) + One(x)
  {
    assert (workers + [x])[..|workers|] == workers;
  }

  lemma {:induction false} InProgressUpdate(workers: seq<Worker>, w: nat, x: Worker)
    requires w < |workers|
    ensures InProgress(workers[w := x]) + One(workers[w]) == InProgress(workers) + One(x)
  {
    var n := |workers| - 1;
    var before, last := workers[..n], workers[n];
    assert InProgress(workers) == InProgress(before) + One(last);
    if w == n {
      assert workers[w := x] == before + [x];
      InProgressLast(before, x);
      SwapBags(InProgress(before), One(x), One(last));
    } else {
      assert workers[w := x] == before[w := x] + [last];
      InProgressLast(before[w := x], last);
      InProgressUpdate(before, w, x);
      ShiftBags(InProgress(before[w := x]), InProgress(before), One(workers[w]), One(x), One(last));
    }
  }

  lemma AddingNothing(a: multiset<Event>, b: multiset<Event>)
    ensures a + multiset{} == b + multiset{} ==> a == b
  {
    assert a + multiset{} == a && b + multiset{} == b;
  }

  lemma TakenBalance(
    taken: multiset<Event>, busy: multiset<Event>, busy': multiset<Event>, handled: multiset<Event>, e: Event)
    requires taken == busy + handled
    ensures busy' == busy + multiset{e} ==> taken + multiset{e} == busy' + handled
    ensures busy' + multiset{e} == busy ==> taken == busy' + (handled + multiset{e})
  {
  }

  ghost predicate SomeExited(workers: seq<Worker>) { exists w :: 0 <= w < |workers| && workers[w].Exited? }

  ghost predicate Inv(p: Pool) {
    && |p.workers| > 0
    && |p.queue| <= p.capacity
    && p.accepted == p.taken + p.queue
    && multiset(p.taken) == InProgress(p.workers) + multiset(p.handled)
    && p.handledLive
    && (SomeExited(p.workers) ==> p.closed && p.queue == [])
    && (p.canceled ==> p.closed && AllExited(p))
  }

  lemma TakeKeepsInv(p: Pool, w: nat)
    requires Inv(p) && CanStep(p, Take(w))
    ensures Inv(Next(p, Take(w)))
  {
    var p', e := Next(p, Take(w)), p.queue[0];
    assert p.queue == [e] + p.queue[1..];
    assert p'.taken + p'.queue == p.taken + p.queue;
    InProgressUpdate(p.workers, w, Handling(e));
    TakenBalance(multiset(p.taken), InProgress(p.workers), InProgress(p'.workers), multiset(p.handled), e);
    ExitedElsewhere(p.workers, w, Handling(e));
    assert !p.canceled;
  }

  lemma FinishKeepsInv(p: Pool, w: nat)
    requires Inv(p) && CanStep(p, Finish(w))
    ensures Inv(Next(p, Finish(w)))
  {
    var p', e := Next(p, Finish(w)), p.workers[w].event;
    InProgressUpdate(p.workers, w, Waiting);
    TakenBalance(multiset(p.taken), InProgress(p.workers), InProgress(p'.workers), multiset(p.handled), e);
    ExitedElsewhere(p.workers, w, Waiting);
    assert !p.canceled;
  }

  lemma StepKeepsInv(p: Pool, s: Step)
    requires Inv(p) && CanStep(p, s)
    ensures Inv(Next(p, s))
  {
    match s
    case Submit(e) =>
    case Take(w) => TakeKeepsInv(p, w);
    case Finish(w) => FinishKeepsInv(p, w);
    case ExitDrained(w) => ExitKeepsInv(p, w);
    case ExitCanceled(w) => assert false;
    case CloseQueue =>
    case CancelContext => assert p.workers[0] == Exited;
  }

  lemma ExitKeepsInv(p: Pool, w: nat)
    requires Inv(p) && CanStep(p, ExitDrained(w))
    ensures Inv(Next(p, ExitDrained(w)))
  {
    InProgressUpdate(p.workers, w, Exited);
    AddingNothing(InProgress(p.workers[w := Exited]), InProgress(p.workers));
    assert !p.canceled;
  }

  lemma StartInv(workers: nat, capacity: nat)
    requires workers > 0
    ensures Inv(Start(workers, capacity))
  {
    NobodyBusy(workers);
    assert !SomeExited(Start(workers, capacity).workers);
  }

  lemma ExitedElsewhere(workers: seq<Worker>, w: nat, x: Worker)
    requires w < |workers| && !x.Exited?
    ensures SomeExited(workers[w := x]) ==> SomeExited(workers)
  {
    if SomeExited(workers[w := x]) {
      var v :| 0 <= v < |workers[w := x]| && workers[w := x][v].Exited?;
      assert workers[v].Exited?;
    }
  }

  /** In every reachable state: no event is lost or doubled between the queue, the workers and the
      handler, the queue keeps to its capacity, events leave it in the order they were accepted, and
      every handler has run under a live context. */
  lemma {:induction false} PoolInvariant(workers: nat, capacity: nat, ps: seq<Pool>, steps: seq<Step>, i: nat)
    requires IsRun(workers, capacity, ps, steps) && i < |ps|
    ensures Inv(ps[i]) && ps[i].capacity == capacity
  {
    if i == 0 {
      StartInv(workers, capacity);
    } else {
      PoolInvariant(workers, capacity, ps, steps, i - 1);
      assert StepAt(ps, steps, i - 1);
      StepKeepsInv(ps[i - 1], steps[i - 1]);
    }
  }

  /** The same as one equation between multisets. */
  lemma NothingLost(workers: nat, capacity: nat, ps: seq<Pool>, steps: seq<Step>, i: nat)
    requires IsRun(workers, capacity, ps, steps) && i < |ps|
    ensures multiset(ps[i].accepted) == multiset(ps[i].queue) + InProgress(ps[i].workers) + multiset(ps[i].handled)
  {
    PoolInvariant(workers, capacity, ps, steps, i);
    assert multiset(ps[i].taken + ps[i].queue) == multiset(ps[i].taken) + multiset(ps[i].queue);
  }

  lemma {:induction false} NobodyBusy(n: nat)
    ensures InProgress(seq(n, _ => Worker.Waiting)) == multiset{}
  {
    if n > 0 {
      NobodyBusy(n - 1);
      assert seq(n, _ => Worker.Waiting)[..n - 1] == seq(n - 1, _ => Worker.Waiting);
    }
  }

  lemma {:induction false} ExitedAreIdle(workers: seq<Worker>)
    requires forall w | 0 <= w < |workers| :: workers[w].Exited?
    ensures InProgress(workers) == multiset{}
  {
    if workers != [] { ExitedAreIdle(workers[..|workers| - 1]); }
  }

  /** Submit answers yes: there is room. */
  ghost predicate SaysYes(p: Pool, s: Step) { s.Submit? && |p.queue| < p.capacity }

  /** The events that Submit said yes to in the first i steps, in order. */
  ghost function SaidYes(ps: seq<Pool>, steps: seq<Step>, i: nat): seq<Event>
    requires i <= |steps| && |ps| == |steps| + 1
  {
    if i == 0 then []
    else SaidYes(ps, steps, i - 1) + (if SaysYes(ps[i - 1], steps[i - 1]) then [steps[i - 1].event] else [])
  }

  /** The events whose handling worker came back in the first i steps, in order. */
  ghost function CameBack(ps: seq<Pool>, steps: seq<Step>, i: nat): seq<Event>
    requires i <= |steps| && |ps| == |steps| + 1
  {
    if i == 0 then []
    else
      var p, s := ps[i - 1], steps[i - 1];
      CameBack(ps, steps, i - 1) +
        (if s.Finish? && s.w < |p.workers| && p.workers[s.w].Handling? then [p.workers[s.w].event] else [])
  }

  /** The histories are what callers and handlers saw: accepted is what Submit said yes to, handled
      is what workers came back from. */
  lemma {:induction false} HistoriesAreObserved(workers: nat, capacity: nat, ps: seq<Pool>, steps: seq<Step>, i: nat)
    requires IsRun(workers, capacity, ps, steps) && i < |ps|
    ensures ps[i].accepted == SaidYes(ps, steps, i) && ps[i].handled == CameBack(ps, steps, i)
  {
    if i > 0 {
      HistoriesAreObserved(workers, capacity, ps, steps, i - 1);
      assert StepAt(ps, steps, i - 1);
      assert ps[i - 1].accepted + [] == ps[i - 1].accepted && ps[i - 1].handled + [] == ps[i - 1].handled;
    }
  }

  /** A worker handles the event at the head of the queue, which leaves it. */
  lemma TakesTheHead(workers: nat, capacity: nat, ps: seq<Pool>, steps: seq<Step>, i: nat)
    requires IsRun(workers, capacity, ps, steps) && i < |steps| && steps[i].Take?
    ensures var p, p', w := ps[i], ps[i + 1], steps[i].w;
      && w < |p.workers| == |p'.workers| && p'.workers[w].Handling? && p.queue == [p'.workers[w].event] + p'.queue
      && forall v | 0 <= v < |p.workers| && v != w :: p'.workers[v] == p.workers[v]
  {
    assert StepAt(ps, steps, i);
    assert ps[i].queue == [ps[i].queue[0]] + ps[i].queue[1..];
  }

  /** When Stop has returned, every accepted event has been handled exactly once, and under a
      live context. */
  lemma StopDrains(workers: nat, capacity: nat, ps: seq<Pool>, steps: seq<Step>, i: nat)
    requires IsRun(workers, capacity, ps, steps) && i < |ps| && ps[i].canceled
    ensures multiset(ps[i].handled) == multiset(ps[i].accepted) && ps[i].handledLive && ps[i].queue == []
    ensures multiset(CameBack(ps, steps, i)) == multiset(SaidYes(ps, steps, i))
  {
    PoolInvariant(workers, capacity, ps, steps, i);
    HistoriesAreObserved(workers, capacity, ps, steps, i);
    AllExitedAllHandled(ps[i]);
  }

  lemma AllExitedAllHandled(p: Pool)
    requires Inv(p) && AllExited(p)
    ensures multiset(p.handled) == multiset(p.accepted) && p.queue == []
  {
    assert p.workers[0].Exited?;
    ExitedAreIdle(p.workers);
  }

  /** No worker ever leaves through the canceled context. */
  lemma NobodySeesCancel(workers: nat, capacity: nat, ps: seq<Pool>, steps: seq<Step>, i: nat)
    requires IsRun(workers, capacity, ps, steps) && i < |steps|
    ensures !steps[i].ExitCanceled?
  {
    PoolInvariant(workers, capacity, ps, steps, i);
    assert StepAt(ps, steps, i);
  }

  // ---------------------------------------------------------------- progress of Stop

  function Weight(w: Worker): nat { match w case Waiting => 1 case Handling(_) => 2 case Exited => 0 }

  function Remaining(workers: seq<Worker>): nat {
    if workers == [] then 0 else Remaining(workers[..|workers| - 1]) + Weight(workers[|workers| - 1])
  }

  lemma {:induction false} RemainingUpdate(workers: seq<Worker>, w: nat, x: Worker)
    requires w < |workers|
    ensures Remaining(workers[w := x]) + Weight(workers[w]) == Remaining(workers) + Weight(x)
  {
    var n := |workers| - 1;
    if w == n {
      assert workers[w := x][..n] == workers[..n];
    } else {
      RemainingUpdate(workers[..n], w, x);
      assert workers[w := x][..n] == workers[..n][w := x];
    }
  }

  /** Twice the queue, plus the busy workers, plus the live workers: the worker steps still due. */
  function StepsToDrain(p: Pool): nat { 2 * |p.queue| + Remaining(p.workers) }

  lemma WorkerStepCounts(p: Pool, s: Step)
    requires CanStep(p, s) && p.closed && !s.CancelContext?
    ensures StepsToDrain(Next(p, s)) == StepsToDrain(p) - 1
  {
    match s
    case Submit(_) =>
    case Take(w) => RemainingUpdate(p.workers, w, Handling(p.queue[0]));
    case Finish(w) => RemainingUpdate(p.workers, w, Waiting);
    case ExitDrained(w) => RemainingUpdate(p.workers, w, Exited);
    case ExitCanceled(w) => RemainingUpdate(p.workers, w, Exited);
    case CloseQueue =>
  }

  /** Once the queue is closed some step can always be taken, until the context is canceled. */
  lemma StopNeverStuck(workers: nat, capacity: nat, ps: seq<Pool>, steps: seq<Step>, i: nat) returns (s: Step)
    requires IsRun(workers, capacity, ps, steps) && i < |ps| && ps[i].closed && !ps[i].canceled
    ensures CanStep(ps[i], s)
  {
    PoolInvariant(workers, capacity, ps, steps, i);
    var p := ps[i];
    if w :| 0 <= w < |p.workers| && p.workers[w].Handling? {
      s := Finish(w);
    } else if w :| 0 <= w < |p.workers| && p.workers[w].Waiting? {
      s := if p.queue == [] then ExitDrained(w) else Take(w);
    } else {
      s := CancelContext;
    }
  }

  /** However the workers interleave, Stop returns after exactly StepsToDrain worker steps, counted
      when the queue closed: none of them can be avoided or wasted. */
  lemma {:induction false} StopTakesExactly(
    workers: nat, capacity: nat, ps: seq<Pool>, steps: seq<Step>, i: nat, j: nat)
    requires IsRun(workers, capacity, ps, steps) && i <= j < |ps| && ps[i].closed && !ps[j].canceled
    ensures ps[j].closed && !ps[i].canceled
    ensures StepsToDrain(ps[j]) == StepsToDrain(ps[i]) - (j - i)
    ensures CanStep(ps[j], CancelContext) <==> j - i == StepsToDrain(ps[i])
  {
    if i < j {
      assert StepAt(ps, steps, j - 1);
      StopTakesExactly(workers, capacity, ps, steps, i, j - 1);
      WorkerStepCounts(ps[j - 1], steps[j - 1]);
    }
    PoolInvariant(workers, capacity, ps, steps, j);
    DrainedExactlyAtZero(ps[j].workers);
    if AllExited(ps[j]) { assert ps[j].workers[0].Exited?; }
  }

  lemma {:induction false} DrainedExactlyAtZero(workers: seq<Worker>)
    ensures Remaining(workers) == 0 <==> forall w | 0 <= w < |workers| :: workers[w] == Exited
  {
    if workers != [] {
      var n := |workers| - 1;
      DrainedExactlyAtZero(workers[..n]);
      assert forall w | 0 <= w < n :: workers[..n][w] == workers[w];
    }
  }

  // ---------------------------------------------------------------- the object

  /** WorkerPool: the channel, its workers and the context. */
  class WorkerPool {
    const capacity: nat
    var queue: seq<Event>
    var workers: seq<Worker>
    var closed: bool
    var canceled: bool
    ghost var accepted: seq<Event>
    ghost var taken: seq<Event>
    ghost var handled: seq<Event>
    ghost var handledLive: bool

    ghost function Value(): Pool
      reads this
    {
      Pool(capacity, queue, workers, closed, canceled, accepted, taken, handled, handledLive)
    }

    /** NewWorkerPool and Start together. */
    constructor (workers: int, queueSize: int)
      ensures Value() == Start(if workers <= 0 then 10 else workers, if queueSize <= 0 then 1000 else queueSize)
      ensures Inv(Value())
    {
      this.capacity := if queueSize <= 0 then 1000 else queueSize;
      this.workers := seq(if workers <= 0 then 10 else workers, _ => Waiting);
      queue, closed, canceled := [], false, false;
      accepted, taken, handled, handledLive := [], [], [], true;
      new;
      StartInv(|this.workers|, this.capacity);
    }

    method Submit(event: Event) returns (ok: bool)
      requires !closed
      modifies this
      ensures Value() == Next(old(Value()), Step.Submit(event))
      ensures ok == (|old(queue)| < capacity)
      ensures ok ==> queue == old(queue) + [event] && accepted == old(accepted) + [event]
      ensures !ok ==> queue == old(queue) && accepted == old(accepted)
    {
      ok := |queue| < capacity;
      if ok {
        queue := queue + [event];
        accepted := accepted + [event];
      }
    }

    /** One turn of worker w's loop: finish the event at hand, or receive, or leave. */
    method Turn(w: nat)
      requires Inv(Value()) && closed && !canceled && w < |workers| && !workers[w].Exited?
      modifies this
      ensures Inv(Value()) && closed && !canceled && accepted == old(accepted)
      ensures StepsToDrain(Value()) == StepsToDrain(old(Value())) - 1
    {
      ghost var before := Value();
      if workers[w].Handling? {
        WorkerStepCounts(before, Finish(w));
        StepKeepsInv(before, Finish(w));
        handled := handled + [workers[w].event];
        workers := workers[w := Waiting];
      } else if queue != [] {
        WorkerStepCounts(before, Take(w));
        StepKeepsInv(before, Take(w));
        taken := taken + [queue[0]];
        workers := workers[w := Handling(queue[0])];
        queue := queue[1..];
      } else {
        WorkerStepCounts(before, ExitDrained(w));
        StepKeepsInv(before, ExitDrained(w));
        workers := workers[w := Exited];
      }
    }

    /** What wg.Wait waits for: the workers run, in any order, until all have left. */
    method Drain()
      requires Inv(Value()) && closed && !canceled
      modifies this
      ensures Inv(Value()) && AllExited(Value()) && closed && !canceled && accepted == old(accepted)
    {
      while exists w :: 0 <= w < |workers| && workers[w] != Exited
        invariant Inv(Value()) && closed && !canceled && accepted == old(accepted)
        decreases StepsToDrain(Value())
      {
        var w :| 0 <= w < |workers| && workers[w] != Exited;
        Turn(w);
      }
    }

    /** Stop: close, wait, cancel. */
    method Stop()
      requires Inv(Value()) && !closed
      modifies this
      ensures canceled && queue == [] && accepted == old(accepted)
      ensures multiset(handled) == multiset(accepted) && handledLive
    {
      StepKeepsInv(Value(), CloseQueue);
      closed := true;
      Drain();
      AllExitedAllHandled(Value());
      canceled := true;
    }
  }
}
