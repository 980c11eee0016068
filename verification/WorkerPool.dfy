/** The worker pool (`jobs/background_executor.cpp`) as a machine over its atomic steps. The queue is
    only touched under the mutex; the `running` flag is tested under it but cleared outside it. */
module WorkerPool {
  /** A submitted task, told apart by its number. */
  datatype Task = Task(id: nat)

  datatype Submitter =
    | Outside
    | Locked(task: Task)     // in `submit`, holding the mutex, before the test of the flag
    | Admitted(task: Task)   // holding the mutex, flag seen true, before the push

  datatype Worker =
    | Idle                   // outside the mutex, or waiting on the condition
    | Checking               // holding the mutex, before the wait predicate
    | Woken                  // holding the mutex, wait predicate seen true
    | Leaving                // holding the mutex, flag seen false and queue seen empty
    | Busy(task: Task)       // running a task, mutex released
    | Exited

  datatype Holder = Free | BySubmitter(i: nat) | ByWorker(i: nat)

  /** `accepted` and `taken` are histories: every task pushed, every task popped, in order. */
  datatype Pool = Pool(
    running: bool, holder: Holder, queue: seq<Task>,
    submitters: seq<Submitter>, workers: seq<Worker>,
    accepted: seq<Task>, taken: seq<Task>, completed: multiset<Task>, failed: multiset<Task>)

  datatype Event =
    | SubmitLocks(i: nat, task: Task)
    | SubmitTests(i: nat)
    | SubmitPushes(i: nat)
    | WorkerLocks(i: nat)
    | WorkerWaits(i: nat)    // evaluates the wait predicate: goes back to waiting or proceeds
    | WorkerDecides(i: nat)  // tests for shutdown, otherwise pops
    | WorkerLeaves(i: nat)
    | WorkerFinishes(i: nat, threw: bool)
    | Starts(n: nat)         // `start`: sets the flag and spawns the workers, joined or not
    | Stops                  // `stop`: clears the flag, without the mutex
    | Joins                  // `stop`: every worker has been joined

  function Start(callers: nat): (p: Pool) {
    Pool(false, Free, [], seq(callers, _ => Outside), [], [], [], multiset{}, multiset{})
  }

  /** A worker past its wait that sees the flag up takes the front task; there must be one. */
  ghost predicate PopIsSafe(p: Pool) {
    forall i :: 0 <= i < |p.workers| && p.workers[i] == Woken && p.running ==> p.queue != []
  }

  /** One atomic step; a step that is not enabled changes nothing. */
  function Step(p: Pool, e: Event): (r: Pool) {
    match e
    case SubmitLocks(i, task) =>
      if i < |p.submitters| && p.submitters[i] == Outside && p.holder == Free
      then p.(holder := BySubmitter(i), submitters := p.submitters[i := Locked(task)]) else p
    case SubmitTests(i) =>
      if i < |p.submitters| && p.submitters[i].Locked?
      then if p.running then p.(submitters := p.submitters[i := Admitted(p.submitters[i].task)])
           else p.(submitters := p.submitters[i := Outside], holder := Free)
      else p
    case SubmitPushes(i) =>
      if i < |p.submitters| && p.submitters[i].Admitted?
      then p.(queue := p.queue + [p.submitters[i].task], accepted := p.accepted + [p.submitters[i].task],
              submitters := p.submitters[i := Outside], holder := Free)
      else p
    case WorkerLocks(i) =>
      if i < |p.workers| && p.workers[i] == Idle && p.holder == Free
      then p.(holder := ByWorker(i), workers := p.workers[i := Checking]) else p
    case WorkerWaits(i) =>
      if i < |p.workers| && p.workers[i] == Checking
      then if !p.running || p.queue != [] then p.(workers := p.workers[i := Woken])
           else p.(workers := p.workers[i := Idle], holder := Free)
      else p
    case WorkerDecides(i) =>
      if i < |p.workers| && p.workers[i] == Woken
      then if !p.running && p.queue == [] then p.(workers := p.workers[i := Leaving])
           else if p.queue == [] then p  // popping an empty queue: undefined, see `EmptyPop`
           else p.(workers := p.workers[i := Busy(p.queue[0])], queue := p.queue[1..],
                   taken := p.taken + [p.queue[0]], holder := Free)
      else p
    case WorkerLeaves(i) =>
      if i < |p.workers| && p.workers[i] == Leaving
      then p.(workers := p.workers[i := Exited], holder := Free) else p
    case WorkerFinishes(i, threw) =>
      if i < |p.workers| && p.workers[i].Busy?
      then var done := multiset{p.workers[i].task};
           p.(workers := p.workers[i := Idle],
              completed := if threw then p.completed else p.completed + done,
              failed := if threw then p.failed + done else p.failed)
      else p
    case Starts(n) =>
      if p.running then p
      else p.(running := true, workers := p.workers + seq(if n == 0 then 1 else n, _ => Idle))
    case Stops => p.(running := false)
    case Joins =>
      if !p.running && (forall i :: 0 <= i < |p.workers| ==> p.workers[i] == Exited) then p.(workers := []) else p
  }

  function Run(p: Pool, events: seq<Event>): (r: Pool)
    decreases events
  {
    if events == [] then p else Run(Step(p, events[0]), events[1..])
  }

  predicate Runs(w: Worker, t: Task) { w.Busy? && w.task == t }

  /** How many workers are running a given task, and how many are running any. */
  function RunningOf(workers: seq<Worker>, t: Task): (k: nat) {
    if workers == [] then 0 else RunningOf(workers[1..], t) + if Runs(workers[0], t) then 1 else 0
  }

  function BusyCount(workers: seq<Worker>): (k: nat) {
    if workers == [] then 0 else BusyCount(workers[1..]) + if workers[0].Busy? then 1 else 0
  }

  lemma {:induction false} RunningUpdate(workers: seq<Worker>, i: nat, w: Worker, t: Task)
    requires i < |workers|
    ensures RunningOf(workers[i := w], t) + (if Runs(workers[i], t) then 1 else 0) ==
            RunningOf(workers, t) + (if Runs(w, t) then 1 else 0)
    ensures BusyCount(workers[i := w]) + (if workers[i].Busy? then 1 else 0) ==
              BusyCount(workers) + (if w.Busy? then 1 else 0)
  {
    var after := workers[i := w];
    if i > 0 {
      assert after[1..] == workers[1..][i - 1 := w];
      RunningUpdate(workers[1..], i - 1, w, t);
    } else {
      assert after[1..] == workers[1..];
    }
  }

  lemma {:induction false} NobodyRuns(workers: seq<Worker>, t: Task)
    requires forall i :: 0 <= i < |workers| ==> !workers[i].Busy?
    ensures RunningOf(workers, t) == 0 && BusyCount(workers) == 0
  {
    if workers == [] {
    } else {
      NobodyRuns(workers[1..], t);
    }
  }

  lemma {:induction false} NewcomersAreIdle(workers: seq<Worker>, more: seq<Worker>, t: Task)
    requires forall i :: 0 <= i < |more| ==> more[i] == Idle
    ensures RunningOf(workers + more, t) == RunningOf(workers, t) && BusyCount(workers + more) == BusyCount(workers)
  {
    if workers == [] {
      assert workers + more == more;
      NobodyRuns(more, t);
    } else {
      assert (workers + more)[1..] == workers[1..] + more;
      NewcomersAreIdle(workers[1..], more, t);
    }
  }

  // ----- The invariant -----

  predicate HoldsAsSubmitter(s: Submitter) { s.Locked? || s.Admitted? }
  predicate HoldsAsWorker(w: Worker) { w == Checking || w == Woken || w == Leaving }

  /** The mutex is held by exactly the thread whose program point is inside it. */
  ghost predicate MutexOk(p: Pool) {
    && (forall i :: 0 <= i < |p.submitters| ==> (HoldsAsSubmitter(p.submitters[i]) <==> p.holder == BySubmitter(i)))
    && (forall i :: 0 <= i < |p.workers| ==> (HoldsAsWorker(p.workers[i]) <==> p.holder == ByWorker(i)))
    && (p.holder.BySubmitter? ==> p.holder.i < |p.submitters|)
    && (p.holder.ByWorker? ==> p.holder.i < |p.workers|)
  }

  /** Once a worker has decided to leave, the flag is down, the queue is empty, and nobody who saw
      the flag up is still about to push. */
  ghost predicate DrainOk(p: Pool) {
    && (forall i :: 0 <= i < |p.workers| && (p.workers[i] == Exited || p.workers[i] == Leaving) ==>
          !p.running && p.queue == [] && forall j :: 0 <= j < |p.submitters| ==> !p.submitters[j].Admitted?)
    && (forall i :: 0 <= i < |p.workers| && p.workers[i] == Woken && p.queue == [] ==> !p.running)
    && (p.workers == [] ==>
          p.queue == [] && !p.running && forall j :: 0 <= j < |p.submitters| ==> !p.submitters[j].Admitted?)
  }

  /** Every task taken is being run, completed or failed, as often as it was taken. */
  ghost predicate Accounted(p: Pool, t: Task) {
    multiset(p.taken)[t] == RunningOf(p.workers, t) + p.completed[t] + p.failed[t]
  }

  ghost predicate Balanced(p: Pool, t: Task) {
    Accounted(p, t) && |p.taken| == BusyCount(p.workers) + |p.completed| + |p.failed|
  }

  /** Tasks leave the queue in the order they came in, and none is lost or run twice. */
  ghost predicate CountOk(p: Pool) {
    && p.accepted == p.taken + p.queue
    && (forall t :: Balanced(p, t))
  }

  ghost predicate Inv(p: Pool) { MutexOk(p) && DrainOk(p) && CountOk(p) }

  // ----- Every step keeps the invariant -----

  /** The pool is only started again after `stop` has joined its workers. */
  predicate Orderly(p: Pool, e: Event) { e.Starts? ==> p.running || p.workers == [] }

  predicate SubmitEvent(e: Event) { e.SubmitLocks? || e.SubmitTests? || e.SubmitPushes? }
  predicate ControlEvent(e: Event) { e.Starts? || e.Stops? || e.Joins? }
  predicate WorkerEvent(e: Event) { !SubmitEvent(e) && !ControlEvent(e) }

  lemma SubmitKeepsMutex(p: Pool, e: Event)
    requires MutexOk(p) && SubmitEvent(e)
    ensures MutexOk(Step(p, e))
  {}

  /** A worker moves between program points, taking the free mutex or giving it back. */
  lemma MoveKeepsMutex(p: Pool, r: Pool, i: nat)
    requires MutexOk(p) && i < |p.workers| && |r.workers| == |p.workers| && r.submitters == p.submitters
    requires r.workers == p.workers[i := r.workers[i]]
    requires HoldsAsWorker(r.workers[i]) ==> r.holder == ByWorker(i) && (p.holder == Free || p.holder == ByWorker(i))
    requires !HoldsAsWorker(r.workers[i]) ==> r.holder == if HoldsAsWorker(p.workers[i]) then Free else p.holder
    ensures MutexOk(r)
  {}

  lemma WorkerKeepsMutex(p: Pool, e: Event)
    requires MutexOk(p) && WorkerEvent(e)
    ensures MutexOk(Step(p, e))
  {
    var r := Step(p, e);
    if r.workers != p.workers {
      assert HoldsAsWorker(p.workers[e.i]) <==> p.holder == ByWorker(e.i);
      hide MutexOk;
      MoveKeepsMutex(p, r, e.i);
    }
  }

  lemma ControlKeepsMutex(p: Pool, e: Event)
    requires MutexOk(p) && ControlEvent(e)
    ensures MutexOk(Step(p, e))
  {}

  lemma SubmitKeepsDrain(p: Pool, e: Event)
    requires MutexOk(p) && DrainOk(p) && SubmitEvent(e)
    ensures DrainOk(Step(p, e))
  {}

  lemma DecideKeepsDrain(p: Pool, i: nat)
    requires MutexOk(p) && DrainOk(p)
    ensures DrainOk(Step(p, WorkerDecides(i)))
  {
    if i < |p.workers| && p.workers[i] == Woken {
      assert p.holder == ByWorker(i);
    }
  }

  lemma WorkerKeepsDrain(p: Pool, e: Event)
    requires MutexOk(p) && DrainOk(p) && WorkerEvent(e)
    ensures DrainOk(Step(p, e))
  {
    if e.WorkerDecides? {
      DecideKeepsDrain(p, e.i);
    } else {
      MoveKeepsDrain(p, e);
    }
  }

  lemma MoveKeepsDrain(p: Pool, e: Event)
    requires DrainOk(p) && WorkerEvent(e) && !e.WorkerDecides?
    ensures DrainOk(Step(p, e))
  {}

  lemma ControlKeepsDrain(p: Pool, e: Event)
    requires MutexOk(p) && DrainOk(p) && ControlEvent(e) && Orderly(p, e)
    ensures DrainOk(Step(p, e))
  {
    if e.Joins? && Step(p, e) != p && p.workers != [] {
      assert p.workers[0] == Exited;
    }
  }

  lemma StepKeepsOrder(p: Pool, e: Event)
    requires p.accepted == p.taken + p.queue
    ensures Step(p, e).accepted == Step(p, e).taken + Step(p, e).queue
  {
    var r := Step(p, e);
    if e.SubmitPushes? && r != p {
      assert r.taken + r.queue == (p.taken + p.queue) + [p.submitters[e.i].task];
    } else if e.WorkerDecides? && r.taken != p.taken {
      assert p.queue == [p.queue[0]] + p.queue[1..];
      assert r.taken + r.queue == p.taken + p.queue;
    }
  }

  lemma TakeKeepsBalance(p: Pool, i: nat, t: Task)
    requires Balanced(p, t)
    ensures Balanced(Step(p, WorkerDecides(i)), t)
  {
    hide RunningOf, BusyCount;
    var r := Step(p, WorkerDecides(i));
    if r != p {
      RunningUpdate(p.workers, i, r.workers[i], t);
    }
  }

  lemma FinishKeepsBalance(p: Pool, i: nat, threw: bool, t: Task)
    requires Balanced(p, t)
    ensures Balanced(Step(p, WorkerFinishes(i, threw)), t)
  {
    hide RunningOf, BusyCount;
    if i < |p.workers| && p.workers[i].Busy? {
      RunningUpdate(p.workers, i, Idle, t);
    }
  }

  lemma MoveKeepsBalance(p: Pool, e: Event, t: Task)
    requires Balanced(p, t) && !ControlEvent(e) && !e.WorkerDecides? && !e.WorkerFinishes?
    ensures Balanced(Step(p, e), t)
  {
    hide RunningOf, BusyCount;
    var r := Step(p, e);
    if r.workers != p.workers {
      RunningUpdate(p.workers, e.i, r.workers[e.i], t);
    }
  }

  lemma ControlKeepsBalance(p: Pool, e: Event, t: Task)
    requires Balanced(p, t) && ControlEvent(e)
    ensures Balanced(Step(p, e), t)
  {
    hide RunningOf, BusyCount;
    var r := Step(p, e);
    if e.Starts? && !p.running {
      var more := r.workers[|p.workers|..];
      assert r.workers == p.workers + more;
      NewcomersAreIdle(p.workers, more, t);
    } else if e.Joins? && r != p {
      NobodyRuns(p.workers, t);
      NobodyRuns([], t);
    }
  }

  lemma StepKeepsBalance(p: Pool, e: Event, t: Task)
    requires Balanced(p, t)
    ensures Balanced(Step(p, e), t)
  {
    hide Balanced, Step;
    match e
    case WorkerDecides(i) => TakeKeepsBalance(p, i, t);
    case WorkerFinishes(i, threw) => FinishKeepsBalance(p, i, threw, t);
    case _ =>
      if ControlEvent(e) {
        ControlKeepsBalance(p, e, t);
      } else {
        MoveKeepsBalance(p, e, t);
      }
  }

  lemma StepKeepsCount(p: Pool, e: Event)
    requires CountOk(p)
    ensures CountOk(Step(p, e))
  {
    hide Step, Balanced;
    StepKeepsOrder(p, e);
    forall t
      ensures Balanced(Step(p, e), t)
    {
      StepKeepsBalance(p, e, t);
    }
  }

  lemma StepKeepsInv(p: Pool, e: Event)
    requires Inv(p) && Orderly(p, e)
    ensures Inv(Step(p, e))
  {
    hide MutexOk, DrainOk, CountOk, Step;
    if SubmitEvent(e) {
      SubmitKeepsMutex(p, e);
      SubmitKeepsDrain(p, e);
    } else if ControlEvent(e) {
      ControlKeepsMutex(p, e);
      ControlKeepsDrain(p, e);
    } else {
      WorkerKeepsMutex(p, e);
      WorkerKeepsDrain(p, e);
    }
    StepKeepsCount(p, e);
  }

  ghost predicate OrderlyRun(p: Pool, events: seq<Event>)
    decreases events
  {
    events == [] || (Orderly(p, events[0]) && OrderlyRun(Step(p, events[0]), events[1..]))
  }

  lemma {:induction false} RunKeepsInv(p: Pool, events: seq<Event>)
    requires Inv(p) && OrderlyRun(p, events)
    ensures Inv(Run(p, events))
    decreases events
  {
    if events == [] {
    } else {
      hide Inv, Step;
      StepKeepsInv(p, events[0]);
      RunKeepsInv(Step(p, events[0]), events[1..]);
    }
  }

  lemma ReachableHasInv(callers: nat, events: seq<Event>)
    requires OrderlyRun(Start(callers), events)
    ensures Inv(Run(Start(callers), events))
  {
    RunKeepsInv(Start(callers), events);
  }

  // ----- What every interleaving guarantees -----

  lemma {:induction false} RunKeepsCount(p: Pool, events: seq<Event>)
    requires CountOk(p)
    ensures CountOk(Run(p, events))
    decreases events
  {
    if events == [] {
    } else {
      hide CountOk, Step;
      StepKeepsCount(p, events[0]);
      RunKeepsCount(Step(p, events[0]), events[1..]);
    }
  }

  /** In every run, however `start` and `stop` overlap, accepted tasks are taken once each in the order
      they were accepted, and every accepted task is queued, running, completed or failed, as often as
      it was accepted. */
  lemma TasksAreConserved(callers: nat, events: seq<Event>, t: Task)
    ensures var p := Run(Start(callers), events);
            && p.accepted == p.taken + p.queue
            && multiset(p.accepted)[t] == multiset(p.queue)[t] + RunningOf(p.workers, t) + p.completed[t] + p.failed[t]
            && |p.accepted| == |p.queue| + BusyCount(p.workers) + |p.completed| + |p.failed|
  {
    RunKeepsCount(Start(callers), events);
    var p := Run(Start(callers), events);
    assert Balanced(p, t);
  }

  /** With every worker gone or going, the flag is down, the queue is empty and nobody is about to push. */
  ghost predicate Quiet(p: Pool) {
    (forall i :: 0 <= i < |p.workers| ==> p.workers[i] == Exited || p.workers[i] == Leaving) ==>
      !p.running && p.queue == [] && forall j :: 0 <= j < |p.submitters| ==> !p.submitters[j].Admitted?
  }

  lemma DecideKeepsQuiet(p: Pool, i: nat)
    requires MutexOk(p) && Quiet(p)
    ensures Quiet(Step(p, WorkerDecides(i)))
  {
    if i < |p.workers| && p.workers[i] == Woken {
      assert p.holder == ByWorker(i);
      var w := Step(p, WorkerDecides(i)).workers[i];
      assert w == Woken || w == Leaving || w.Busy?;
    }
  }

  lemma MoveKeepsQuiet(p: Pool, e: Event)
    requires Quiet(p) && WorkerEvent(e) && !e.WorkerDecides?
    ensures Quiet(Step(p, e))
  {
    var r := Step(p, e);
    if r != p {
      assert r.workers[e.i] != Leaving && (r.workers[e.i] == Exited ==> p.workers[e.i] == Leaving);
      assert forall j :: 0 <= j < |p.workers| && j != e.i ==> r.workers[j] == p.workers[j];
    }
  }

  lemma OthersKeepQuiet(p: Pool, e: Event)
    requires Quiet(p) && (SubmitEvent(e) || ControlEvent(e))
    ensures Quiet(Step(p, e))
  {
    if e.Starts? && !p.running {
      assert Step(p, e).workers[|p.workers|] == Idle;
    }
  }

  lemma StepKeepsQuiet(p: Pool, e: Event)
    requires MutexOk(p) && Quiet(p)
    ensures Quiet(Step(p, e))
  {
    hide MutexOk, Quiet, Step;
    if SubmitEvent(e) || ControlEvent(e) {
      OthersKeepQuiet(p, e);
    } else if e.WorkerDecides? {
      DecideKeepsQuiet(p, e.i);
    } else {
      MoveKeepsQuiet(p, e);
    }
  }

  lemma {:induction false} RunKeepsQuiet(p: Pool, events: seq<Event>)
    requires MutexOk(p) && Quiet(p)
    ensures Quiet(Run(p, events))
    decreases events
  {
    if events == [] {
    } else {
      hide MutexOk, Quiet, Step;
      StepKeepsMutex(p, events[0]);
      StepKeepsQuiet(p, events[0]);
      RunKeepsQuiet(Step(p, events[0]), events[1..]);
    }
  }

  /** In every run, however `start` and `stop` overlap, once all workers have exited the flag is down, the
      queue is empty, and every accepted task has completed or failed. */
  lemma AllExitedMeansDone(callers: nat, events: seq<Event>, t: Task)
    requires var p := Run(Start(callers), events); forall i :: 0 <= i < |p.workers| ==> p.workers[i] == Exited
    ensures var p := Run(Start(callers), events);
            && !p.running && p.queue == [] && p.accepted == p.taken
            && multiset(p.accepted)[t] == p.completed[t] + p.failed[t]
            && |p.accepted| == |p.completed| + |p.failed|
  {
    RunKeepsQuiet(Start(callers), events);
    RunKeepsCount(Start(callers), events);
    var p := Run(Start(callers), events);
    assert Balanced(p, t);
    NobodyRuns(p.workers, t);
  }

  /** Although the flag is cleared without the mutex, one exited worker already means an empty queue,
      and once all have exited every accepted task has run. */
  lemma ExitMeansDrained(callers: nat, events: seq<Event>, i: nat, t: Task)
    requires OrderlyRun(Start(callers), events)
    requires var p := Run(Start(callers), events); i < |p.workers| && p.workers[i] == Exited
    ensures var p := Run(Start(callers), events);
            && !p.running && p.queue == [] && p.accepted == p.taken
            && ((forall j :: 0 <= j < |p.workers| ==> p.workers[j] == Exited) ==>
                  multiset(p.accepted)[t] == p.completed[t] + p.failed[t] && |p.accepted| == |p.completed| + |p.failed|)
  {
    ReachableHasInv(callers, events);
    var p := Run(Start(callers), events);
    assert Balanced(p, t);
    if forall j :: 0 <= j < |p.workers| ==> p.workers[j] == Exited {
      NobodyRuns(p.workers, t);
    }
  }

  // ----- When a pool may be started again -----

  /** Worker `e.i` pops although the queue is empty, which the source leaves undefined. */
  predicate EmptyPop(p: Pool, e: Event) {
    e.WorkerDecides? && e.i < |p.workers| && p.workers[e.i] == Woken && p.running && p.queue == []
  }

  /** No worker ever pops an empty queue. */
  ghost predicate PopsSafely(p: Pool, events: seq<Event>)
    decreases events
  {
    events == [] || (!EmptyPop(p, events[0]) && PopsSafely(Step(p, events[0]), events[1..]))
  }

  /** What a caller of `start` has to see: work in the queue, or nobody past its wait. */
  predicate MayStart(p: Pool) {
    p.queue != [] || forall i :: 0 <= i < |p.workers| ==> p.workers[i] != Woken
  }

  /** Every `start` that takes effect finds the pool in such a state; one after `stop` has joined all
      workers always does. */
  ghost predicate GuardedRun(p: Pool, events: seq<Event>)
    decreases events
  {
    || events == []
    || ((events[0].Starts? && !p.running ==> MayStart(p)) && GuardedRun(Step(p, events[0]), events[1..]))
  }

  lemma StepKeepsPopsSafe(p: Pool, e: Event)
    requires MutexOk(p) && PopIsSafe(p) && (e.Starts? && !p.running ==> MayStart(p))
    ensures PopIsSafe(Step(p, e))
  {
    if e.WorkerDecides? && e.i < |p.workers| && p.workers[e.i] == Woken {
      assert p.holder == ByWorker(e.i);
    }
  }

  lemma StepKeepsMutex(p: Pool, e: Event)
    requires MutexOk(p)
    ensures MutexOk(Step(p, e))
  {
    hide MutexOk, Step;
    if SubmitEvent(e) {
      SubmitKeepsMutex(p, e);
    } else if ControlEvent(e) {
      ControlKeepsMutex(p, e);
    } else {
      WorkerKeepsMutex(p, e);
    }
  }

  lemma {:induction false} GuardedPopsSafely(p: Pool, events: seq<Event>)
    requires MutexOk(p) && PopIsSafe(p) && GuardedRun(p, events)
    ensures PopsSafely(p, events) && PopIsSafe(Run(p, events)) && MutexOk(Run(p, events))
    decreases events
  {
    if events == [] {
    } else {
      var e := events[0];
      assert !EmptyPop(p, e);
      hide MutexOk, PopIsSafe, Step, MayStart, EmptyPop;
      StepKeepsMutex(p, e);
      StepKeepsPopsSafe(p, e);
      GuardedPopsSafely(Step(p, e), events[1..]);
    }
  }

  /** A run whose every `start` meets the guard never pops an empty queue. */
  lemma GuardedRunsPopSafely(callers: nat, events: seq<Event>)
    requires GuardedRun(Start(callers), events)
    ensures PopsSafely(Start(callers), events)
  {
    GuardedPopsSafely(Start(callers), events);
  }

  /** After any such run, starting again is safe, in the sense that no continuation with guarded starts
      pops an empty queue, if and only if this start meets the guard too. */
  lemma RestartIsSafeIff(callers: nat, before: seq<Event>, n: nat)
    requires GuardedRun(Start(callers), before) && !Run(Start(callers), before).running
    ensures var p := Run(Start(callers), before);
            MayStart(p) <==>
            forall after :: GuardedRun(Step(p, Starts(n)), after) ==> PopsSafely(Step(p, Starts(n)), after)
  {
    GuardedPopsSafely(Start(callers), before);
    hide Run, MutexOk, PopIsSafe;
    var p := Run(Start(callers), before);
    var r := Step(p, Starts(n));
    if MayStart(p) {
      StepKeepsMutex(p, Starts(n));
      StepKeepsPopsSafe(p, Starts(n));
      hide Step;
      forall after | GuardedRun(r, after)
        ensures PopsSafely(r, after)
      {
        GuardedPopsSafely(r, after);
      }
    } else {
      var after := EarlyStartPops(p, n);
      assert GuardedRun(r, after) && !PopsSafely(r, after);
    }
  }

  lemma EarlyStartPops(p: Pool, n: nat) returns (after: seq<Event>)
    requires !MayStart(p) && !p.running
    ensures var r := Step(p, Starts(n)); GuardedRun(r, after) && !PopsSafely(r, after)
  {
    var i :| 0 <= i < |p.workers| && p.workers[i] == Woken;
    after := [WorkerDecides(i)];
    assert EmptyPop(Step(p, Starts(n)), after[0]);
    assert after[1..] == [];
  }

  lemma PopsSafelyCons(p: Pool, e: Event, rest: seq<Event>)
    ensures PopsSafely(p, [e] + rest) ==> !EmptyPop(p, e) && PopsSafely(Step(p, e), rest)
  {
    assert ([e] + rest)[1..] == rest;
  }

  lemma WokenThenRestarted(p: Pool)
    requires p.workers == [Idle] && p.holder == Free && p.queue == []
    ensures EmptyPop(Step(Step(Step(Step(p, WorkerLocks(0)), Stops), WorkerWaits(0)), Starts(1)), WorkerDecides(0))
  {
    var q := Step(Step(Step(p, WorkerLocks(0)), Stops), WorkerWaits(0));
    assert q.workers == [Woken] && !q.running && q.queue == [];
  }

  /** A `start` that overlaps the `stop` before it can make a worker pop an empty queue. */
  lemma EarlyRestartIsUnsafe()
    ensures !PopsSafely(Start(0), [Starts(1)] + ([WorkerLocks(0)] + ([Stops] + ([WorkerWaits(0)] +
                                  ([Starts(1)] + [WorkerDecides(0)])))))
  {
    var p1 := Step(Start(0), Starts(1));
    assert p1.workers == [Idle] && p1.holder == Free && p1.running && p1.queue == [];
    var p2 := Step(p1, WorkerLocks(0));
    var p3 := Step(p2, Stops);
    var p4 := Step(p3, WorkerWaits(0));
    var p5 := Step(p4, Starts(1));
    assert EmptyPop(p5, WorkerDecides(0)) by { WokenThenRestarted(p1); }
    hide Step, EmptyPop;
    var e5 := [Starts(1)] + [WorkerDecides(0)];
    var e4 := [WorkerWaits(0)] + e5;
    var e3 := [Stops] + e4;
    var e2 := [WorkerLocks(0)] + e3;
    PopsSafelyCons(Start(0), Starts(1), e2);
    PopsSafelyCons(p1, WorkerLocks(0), e3);
    PopsSafelyCons(p2, Stops, e4);
    PopsSafelyCons(p3, WorkerWaits(0), e5);
    PopsSafelyCons(p4, Starts(1), [WorkerDecides(0)]);
  }

  // ----- What the calls do -----

  lemma RunCons(p: Pool, e: Event, rest: seq<Event>)
    ensures Run(p, [e] + rest) == Run(Step(p, e), rest)
  {
    assert ([e] + rest)[1..] == rest;
  }

  lemma ThreeSteps(p: Pool, a: Event, b: Event, c: Event)
    ensures Run(p, [a] + ([b] + ([c] + []))) == Step(Step(Step(p, a), b), c)
  {
    assert Run(Step(Step(Step(p, a), b), c), []) == Step(Step(Step(p, a), b), c);
    hide Step, Run;
    RunCons(p, a, [b] + ([c] + []));
    RunCons(Step(p, a), b, [c] + []);
    RunCons(Step(Step(p, a), b), c, []);
  }

  /** A whole `submit` on a free pool: the task goes to the end of the queue when the flag is up, and nothing
      changes when it is down. */
  lemma SubmitIsAccepted(p: Pool, i: nat, t: Task)
    requires p.holder == Free && i < |p.submitters| && p.submitters[i] == Outside
    ensures Run(p, [SubmitLocks(i, t)] + ([SubmitTests(i)] + ([SubmitPushes(i)] + []))) ==
            if p.running then p.(queue := p.queue + [t], accepted := p.accepted + [t]) else p
  {
    ThreeSteps(p, SubmitLocks(i, t), SubmitTests(i), SubmitPushes(i));
    hide Run;
    assert p.submitters[i := Outside] == p.submitters;
  }

  /** The flag is up exactly when the last effective `start` came after the last `stop`. */
  function FlagFrom(up: bool, events: seq<Event>): (b: bool)
    decreases events
  {
    if events == [] then up else FlagFrom((up || events[0].Starts?) && !events[0].Stops?, events[1..])
  }

  lemma {:induction false} FlagRun(p: Pool, events: seq<Event>)
    ensures Run(p, events).running == FlagFrom(p.running, events)
    decreases events
  {
    if events == [] {
    } else {
      assert Step(p, events[0]).running == ((p.running || events[0].Starts?) && !events[0].Stops?);
      hide Step;
      FlagRun(Step(p, events[0]), events[1..]);
    }
  }

  /** The task whose test of the flag, under the mutex, finds it up. */
  function Tested(p: Pool, e: Event): (ts: seq<Task>) {
    if e.SubmitTests? && e.i < |p.submitters| && p.submitters[e.i].Locked? && p.running then [p.submitters[e.i].task]
    else []
  }

  function TestedIn(p: Pool, events: seq<Event>): (ts: seq<Task>)
    decreases events
  {
    if events == [] then [] else Tested(p, events[0]) + TestedIn(Step(p, events[0]), events[1..])
  }

  /** The task between its test and its push, if there is one. */
  function Admitting(p: Pool): (ts: seq<Task>) {
    if p.holder.BySubmitter? && p.holder.i < |p.submitters| && p.submitters[p.holder.i].Admitted?
    then [p.submitters[p.holder.i].task]
    else []
  }

  lemma AcceptedStep(p: Pool, e: Event)
    requires MutexOk(p)
    ensures Step(p, e).accepted + Admitting(Step(p, e)) == p.accepted + Admitting(p) + Tested(p, e)
  {
    if SubmitEvent(e) && e.i < |p.submitters| {
      assert HoldsAsSubmitter(p.submitters[e.i]) <==> p.holder == BySubmitter(e.i);
    } else if WorkerEvent(e) && e.i < |p.workers| {
      assert HoldsAsWorker(p.workers[e.i]) <==> p.holder == ByWorker(e.i);
    }
  }

  lemma {:induction false} AcceptedRun(p: Pool, events: seq<Event>)
    requires MutexOk(p)
    ensures Run(p, events).accepted + Admitting(Run(p, events)) == p.accepted + Admitting(p) + TestedIn(p, events)
    decreases events
  {
    if events == [] {
    } else {
      hide MutexOk, Step, Admitting, Tested;
      AcceptedStep(p, events[0]);
      StepKeepsMutex(p, events[0]);
      var r, rest := Step(p, events[0]), events[1..];
      AcceptedRun(r, rest);
      Regroup(p.accepted + Admitting(p), Tested(p, events[0]), TestedIn(r, rest));
    }
  }

  lemma Regroup(a: seq<Task>, b: seq<Task>, c: seq<Task>)
    ensures (a + b) + c == a + (b + c)
  {}

  /** In every run the accepted tasks are exactly those whose test saw the flag up, in the order of their
      tests, but for one that is still about to be pushed. */
  lemma AcceptedAreTested(callers: nat, events: seq<Event>)
    ensures var p := Run(Start(callers), events);
            p.accepted + Admitting(p) == TestedIn(Start(callers), events)
  {
    AcceptedRun(Start(callers), events);
    assert Start(callers).accepted + Admitting(Start(callers)) == [];
  }

  /** A worker that gets the mutex takes the front task when there is one, goes back to waiting when there is
      none, and leaves when there is none and the flag is down. */
  lemma WorkerTurn(p: Pool, i: nat)
    requires p.holder == Free && i < |p.workers| && p.workers[i] == Idle
    ensures Run(p, [WorkerLocks(i)] + ([WorkerWaits(i)] + ([WorkerDecides(i)] + []))) ==
            if p.queue != [] then
              p.(queue := p.queue[1..], taken := p.taken + [p.queue[0]], workers := p.workers[i := Busy(p.queue[0])])
            else if p.running then p
            else p.(holder := ByWorker(i), workers := p.workers[i := Leaving])
  {
    ThreeSteps(p, WorkerLocks(i), WorkerWaits(i), WorkerDecides(i));
    hide Run;
    var q := Step(Step(p, WorkerLocks(i)), WorkerWaits(i));
    assert p.workers[i := Checking][i := Idle] == p.workers;
    assert p.workers[i := Checking][i := Woken] == p.workers[i := Woken];
    if p.running && p.queue == [] {
      assert q == p;
    } else {
      assert q == p.(holder := ByWorker(i), workers := p.workers[i := Woken]);
      WokenDecides(q, i);
      var w := Step(q, WorkerDecides(i)).workers[i];
      assert p.workers[i := Woken][i := w] == p.workers[i := w];
    }
  }

  lemma WokenDecides(q: Pool, i: nat)
    requires i < |q.workers| && q.workers[i] == Woken && (q.running ==> q.queue != [])
    ensures Step(q, WorkerDecides(i)) ==
            if q.queue == [] then q.(workers := q.workers[i := Leaving])
            else q.(queue := q.queue[1..], taken := q.taken + [q.queue[0]], holder := Free,
                    workers := q.workers[i := Busy(q.queue[0])])
  {}

  /** A task that threw counts as failed and any other as completed, and its worker is free again; a worker
      on its way out lets the mutex go. */
  lemma WorkerEnds(p: Pool, i: nat, threw: bool)
    requires i < |p.workers|
    ensures p.workers[i].Busy? ==>
              var t := p.workers[i].task;
              var r := Step(p, WorkerFinishes(i, threw));
              && r == p.(workers := p.workers[i := Idle], completed := r.completed, failed := r.failed)
              && r.completed == p.completed + (if threw then multiset{} else multiset{t})
              && r.failed == p.failed + (if threw then multiset{t} else multiset{})
    ensures p.workers[i] == Leaving ==>
              Step(p, WorkerLeaves(i)) == p.(holder := Free, workers := p.workers[i := Exited])
  {}

  /** `start` raises the flag and adds as many waiting workers as asked for, at least one, unless the flag is
      up; `stop` lowers it and, once all workers are gone, forgets them. */
  lemma StartsAndStops(p: Pool, n: nat)
    ensures var r := Step(p, Starts(n));
            if p.running then r == p
            else
              && r == p.(running := true, workers := r.workers) && p.workers <= r.workers
              && |r.workers| == |p.workers| + (if n > 1 then n else 1)
              && forall i :: |p.workers| <= i < |r.workers| ==> r.workers[i] == Idle
    ensures Step(p, Stops) == p.(running := false)
    ensures Step(p, Joins) ==
            if p.running || exists i :: 0 <= i < |p.workers| && p.workers[i] != Exited then p else p.(workers := [])
  {}
}
