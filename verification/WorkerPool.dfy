/**
  The worker pool: any number of threads submit tasks, a fixed number of
  workers take them, and the destructor waits until everything is done.
 */
module WorkerPool {
  type Task = nat

  // ---- the critical sections ----

  /** What a worker does when it holds the mutex. */
  datatype Decision = Sleep | Leave | Take(task: Task)

  function Decide(tasks: seq<Task>, stop: bool): Decision {
    if !stop && tasks == [] then Sleep
    else if tasks == [] then Leave
    else Take(tasks[0])
  }

  datatype Submission = NotInitialized | Dropped | Queued

  class Pool {
    var tasks: seq<Task>
    var stop: bool
    var initialized: bool
    var workerCount: int

    constructor ()
      ensures tasks == [] && !stop && !initialized && workerCount == 0
    {
      tasks, stop, initialized, workerCount := [], false, false, 0;
    }

    /** Starts at least four workers, once. */
    method Init(count: int)
      modifies this
      ensures initialized && tasks == old(tasks) && stop == old(stop)
      ensures workerCount == if old(initialized) then old(workerCount) else if count < 4 then 4 else count
    {
      if initialized {
        return;
      }
      var n := count;
      if n < 4 {
        n := 4;
      }
      workerCount := n;
      initialized := true;
    }

    /** The part of submit under the mutex; only a queued task is followed by a notification. */
    method Submit(task: Task) returns (r: Submission)
      modifies this
      ensures stop == old(stop) && initialized == old(initialized) && workerCount == old(workerCount)
      ensures r == if !old(initialized) then NotInitialized else if old(stop) then Dropped else Queued
      ensures tasks == if r == Queued then old(tasks) + [task] else old(tasks)
    {
      if !initialized {
        return NotInitialized;
      }
      if stop {
        return Dropped;
      }
      tasks := tasks + [task];
      return Queued;
    }

    /** The part of the worker loop under the mutex. */
    method TakeTask() returns (d: Decision)
      modifies this
      ensures d == Decide(old(tasks), old(stop))
      ensures (d == Sleep <==> old(tasks) == [] && !old(stop)) && (d == Leave <==> old(tasks) == [] && old(stop))
      ensures stop == old(stop) && initialized == old(initialized) && workerCount == old(workerCount)
      ensures if d.Take? then old(tasks) == [d.task] + tasks else tasks == old(tasks)
    {
      if !(stop || tasks != []) {
        return Sleep;
      }
      if stop && tasks == [] {
        return Leave;
      }
      d := Take(tasks[0]);
      tasks := tasks[1..];
    }
  }

  // ---- all threads together ----

  /** A worker is about to look at the queue, asleep, running a task, or gone. */
  datatype Worker = Checking | Waiting | Running(task: Task) | Returned

  datatype Closer = NotClosing | NotifyingAll | Joining | Closed

  /**
    `pending` counts the submitters between queueing a task and notifying;
    `accepted`, `dequeued` and `finished` record what has happened.
   */
  datatype State = State(
    tasks: seq<Task>, stop: bool, workers: seq<Worker>, pending: nat, closer: Closer,
    accepted: seq<Task>, dequeued: seq<Task>, finished: multiset<Task>)

  datatype Event =
    | Submit(task: Task)
    | NotifyOne(worker: nat)
    | Check(worker: nat)
    | Finish(worker: nat)
    | WakeUp(worker: nat)
    | SetStop
    | NotifyAll
    | Join

  predicate SomeWaiting(s: State) {
    exists w | 0 <= w < |s.workers| :: s.workers[w] == Waiting
  }

  predicate AllReturned(s: State) {
    forall w | 0 <= w < |s.workers| :: s.workers[w] == Returned
  }

  predicate Enabled(s: State, e: Event) {
    match e
    case Submit(_) => true
    case NotifyOne(w) => s.pending > 0 && (SomeWaiting(s) ==> w < |s.workers| && s.workers[w] == Waiting)
    case Check(w) => w < |s.workers| && s.workers[w] == Checking
    case Finish(w) => w < |s.workers| && s.workers[w].Running?
    case WakeUp(w) => w < |s.workers| && s.workers[w] == Waiting
    case SetStop => s.closer == NotClosing
    case NotifyAll => s.closer == NotifyingAll
    case Join => s.closer == Joining && AllReturned(s)
  }

  function Woken(workers: seq<Worker>): (r: seq<Worker>)
    ensures |r| == |workers|
    ensures forall w | 0 <= w < |workers| :: r[w] == if workers[w] == Waiting then Checking else workers[w]
  {
    seq(|workers|, w requires 0 <= w < |workers| => if workers[w] == Waiting then Checking else workers[w])
  }

  function Apply(s: State, e: Event): State
    requires Enabled(s, e)
  {
    match e
    case Submit(t) =>
      if s.stop then s else s.(tasks := s.tasks + [t], pending := s.pending + 1, accepted := s.accepted + [t])
    case NotifyOne(w) =>
      if SomeWaiting(s) then s.(pending := s.pending - 1, workers := s.workers[w := Checking]) else s.(pending := s.pending - 1)
    case Check(w) =>
      (match Decide(s.tasks, s.stop)
       case Sleep => s.(workers := s.workers[w := Waiting])
       case Leave => s.(workers := s.workers[w := Returned])
       case Take(t) => s.(tasks := s.tasks[1..], dequeued := s.dequeued + [t], workers := s.workers[w := Running(t)]))
    case Finish(w) => s.(finished := s.finished + multiset{s.workers[w].task}, workers := s.workers[w := Checking])
    case WakeUp(w) => s.(workers := s.workers[w := Checking])
    case SetStop => s.(stop := true, closer := NotifyingAll)
    case NotifyAll => s.(workers := Woken(s.workers), closer := Joining)
    case Join => s.(closer := Closed)
  }

  /** A state that a sequence of events leads to. */
  ghost predicate Reaches(s: State, events: seq<Event>, t: State)
    decreases |events|
  {
    if events == [] then s == t
    else Enabled(s, events[0]) && Reaches(Apply(s, events[0]), events[1..], t)
  }

  ghost predicate Initial(s: State) {
    && s.tasks == [] && !s.stop && s.pending == 0 && s.closer == NotClosing && |s.workers| > 0
    && (forall w | 0 <= w < |s.workers| :: s.workers[w] == Checking)
    && s.accepted == [] && s.dequeued == [] && s.finished == multiset{}
  }

  // ---- what every step keeps ----

  function TaskOf(x: Worker): multiset<Task> {
    if x.Running? then multiset{x.task} else multiset{}
  }

  function RunningTasks(workers: seq<Worker>): multiset<Task> {
    if workers == [] then multiset{} else RunningTasks(workers[..|workers| - 1]) + TaskOf(workers[|workers| - 1])
  }

  predicate Active(x: Worker) {
    x == Checking || x.Running?
  }

  predicate SomeActive(s: State) {
    exists w | 0 <= w < |s.workers| :: Active(s.workers[w])
  }

  /** Tasks leave the queue in the order in which they came, each once. */
  predicate FirstInFirstOut(s: State) {
    s.accepted == s.dequeued + s.tasks
  }

  /** Every dequeued task is being run or has been. */
  ghost predicate Accounted(s: State) {
    multiset(s.dequeued) == s.finished + RunningTasks(s.workers)
  }

  /** A task in the queue will be looked at: by an active worker, or after a notification that is on its way. */
  predicate Attended(s: State) {
    s.tasks != [] ==> SomeActive(s) || s.pending > 0 || s.closer == NotifyingAll
  }

  predicate Orderly(s: State) {
    && |s.workers| > 0
    && (forall w | 0 <= w < |s.workers| && s.workers[w] == Returned :: s.stop && s.tasks == [])
    && (s.stop <==> s.closer != NotClosing)
    && (s.closer == Joining || s.closer == Closed ==> !SomeWaiting(s))
    && (s.closer == Closed ==> AllReturned(s))
  }

  ghost predicate Inv(s: State) {
    FirstInFirstOut(s) && Accounted(s) && Attended(s) && Orderly(s)
  }

  lemma {:induction false} NothingRunning(workers: seq<Worker>)
    requires forall w | 0 <= w < |workers| :: !workers[w].Running?
    ensures RunningTasks(workers) == multiset{}
  {
    if workers != [] {
      NothingRunning(workers[..|workers| - 1]);
    }
  }

  lemma InitialInv(s: State)
    requires Initial(s)
    ensures Inv(s)
  {
    NothingRunning(s.workers);
    assert Active(s.workers[0]);
  }

  lemma Exchange(a: multiset<Task>, b: multiset<Task>, c: multiset<Task>, d: multiset<Task>, e: multiset<Task>)
    requires a + d == b + e
    ensures (a + c) + d == (b + c) + e
  {
    assert (a + c) + d == (a + d) + c && (b + c) + e == (b + e) + c;
  }

  /** Changing one worker changes the running tasks by that worker's. */
  lemma {:induction false} OneWorker(workers: seq<Worker>, w: nat, x: Worker)
    requires w < |workers|
    ensures RunningTasks(workers[w := x]) + TaskOf(workers[w]) == RunningTasks(workers) + TaskOf(x)
  {
    hide TaskOf;
    var n := |workers| - 1;
    if w == n {
      assert workers[w := x][..n] == workers[..n];
      Exchange(TaskOf(x), TaskOf(workers[n]), RunningTasks(workers[..n]), TaskOf(workers[n]), TaskOf(x));
      Commute(RunningTasks(workers[..n]), TaskOf(x), TaskOf(workers[n]));
    } else {
      OneWorker(workers[..n], w, x);
      assert workers[w := x][..n] == workers[..n][w := x];
      Exchange(RunningTasks(workers[..n][w := x]), RunningTasks(workers[..n]), TaskOf(workers[n]), TaskOf(workers[w]), TaskOf(x));
    }
  }

  lemma Commute(a: multiset<Task>, b: multiset<Task>, c: multiset<Task>)
    ensures (a + b) + c == (a + c) + b
  {}

  lemma {:induction false} SameRunning(a: seq<Worker>, b: seq<Worker>)
    requires |a| == |b| && forall w | 0 <= w < |a| :: TaskOf(a[w]) == TaskOf(b[w])
    ensures RunningTasks(a) == RunningTasks(b)
  {
    if a != [] {
      var n := |a| - 1;
      SameRunning(a[..n], b[..n]);
      assert TaskOf(a[n]) == TaskOf(b[n]);
    }
  }

  lemma StepFifo(s: State, e: Event)
    requires FirstInFirstOut(s) && Enabled(s, e)
    ensures FirstInFirstOut(Apply(s, e))
  {
    if e.Check? && s.tasks != [] {
      assert s.tasks == [s.tasks[0]] + s.tasks[1..];
    }
  }

  lemma StepAccounted(s: State, e: Event)
    requires Accounted(s) && Enabled(s, e)
    ensures Accounted(Apply(s, e))
  {
    hide RunningTasks, TaskOf, SomeWaiting;
    var t := Apply(s, e);
    match e
    case Submit(_) =>
    case NotifyOne(w) =>
      if SomeWaiting(s) {
        Unchanged(s, w, Checking);
      }
    case Check(w) =>
      if s.tasks == [] {
        Unchanged(s, w, t.workers[w]);
      } else {
        TaskStarted(s, w);
      }
    case Finish(w) =>
      TaskFinished(s, w);
    case WakeUp(w) =>
      Unchanged(s, w, Checking);
    case SetStop =>
    case NotifyAll =>
      WokenRun(s.workers);
    case Join =>
  }

  lemma WokenRun(workers: seq<Worker>)
    ensures RunningTasks(Woken(workers)) == RunningTasks(workers)
  {
    SameRunning(workers, Woken(workers));
  }

  /** An idle worker that stays idle. */
  lemma Unchanged(s: State, w: nat, x: Worker)
    requires w < |s.workers| && !s.workers[w].Running? && !x.Running?
    ensures RunningTasks(s.workers[w := x]) == RunningTasks(s.workers)
  {
    OneWorker(s.workers, w, x);
    var a, b := RunningTasks(s.workers[w := x]), RunningTasks(s.workers);
    assert a + multiset{} == a && b + multiset{} == b;
  }

  lemma TaskStarted(s: State, w: nat)
    requires Accounted(s) && w < |s.workers| && s.workers[w] == Checking && s.tasks != []
    ensures multiset(s.dequeued + [s.tasks[0]]) == s.finished + RunningTasks(s.workers[w := Running(s.tasks[0])])
  {
    OneWorker(s.workers, w, Running(s.tasks[0]));
    var a, b, x := RunningTasks(s.workers[w := Running(s.tasks[0])]), RunningTasks(s.workers), multiset{s.tasks[0]};
    assert TaskOf(Checking) == multiset{} && a + multiset{} == a;
    hide RunningTasks, TaskOf;
    assert a == b + x;
    assert s.finished + (b + x) == (s.finished + b) + x;
  }

  lemma TaskFinished(s: State, w: nat)
    requires Accounted(s) && w < |s.workers| && s.workers[w].Running?
    ensures multiset(s.dequeued) == s.finished + multiset{s.workers[w].task} + RunningTasks(s.workers[w := Checking])
  {
    OneWorker(s.workers, w, Checking);
    var a, b, x := RunningTasks(s.workers[w := Checking]), RunningTasks(s.workers), multiset{s.workers[w].task};
    assert TaskOf(Checking) == multiset{} && b + multiset{} == b;
    hide RunningTasks, TaskOf;
    assert a + x == b;
    assert s.finished + x + a == s.finished + (a + x);
  }

  lemma StepAttended(s: State, e: Event)
    requires Attended(s) && Orderly(s) && Enabled(s, e)
    ensures Attended(Apply(s, e))
  {
    var t := Apply(s, e);
    match e
    case Submit(_) =>
      StillActive(s, t);
    case NotifyOne(w) =>
      if SomeWaiting(s) {
        assert Active(t.workers[w]);
      } else if s.tasks != [] {
        assert Active(s.workers[0]);
        assert Active(t.workers[0]);
      }
    case Check(w) =>
      if s.tasks != [] {
        assert Active(t.workers[w]);
      }
    case Finish(w) =>
      assert Active(t.workers[w]);
    case WakeUp(w) =>
      assert Active(t.workers[w]);
    case SetStop =>
    case NotifyAll =>
      if s.tasks != [] {
        assert Active(t.workers[0]);
      }
    case Join =>
      StillActive(s, t);
  }

  lemma StillActive(s: State, t: State)
    requires t.workers == s.workers
    ensures SomeActive(s) ==> SomeActive(t)
  {}

  lemma StepOrderly(s: State, e: Event)
    requires Orderly(s) && Enabled(s, e)
    ensures Orderly(Apply(s, e))
  {
    var t := Apply(s, e);
    if SomeWaiting(t) {
      var w :| 0 <= w < |t.workers| && t.workers[w] == Waiting;
      assert e.Check? || e.NotifyAll? || s.workers[w] == Waiting;
    }
    match e
    case Submit(_) =>
    case NotifyOne(w) =>
    case Check(w) =>
    case Finish(w) =>
    case WakeUp(w) =>
    case SetStop =>
    case NotifyAll =>
    case Join =>
  }

  lemma StepKeepsInv(s: State, e: Event)
    requires Inv(s) && Enabled(s, e)
    ensures Inv(Apply(s, e))
  {
    hide Enabled, Apply, FirstInFirstOut, Accounted, Attended, Orderly;
    StepFifo(s, e);
    StepAccounted(s, e);
    StepAttended(s, e);
    StepOrderly(s, e);
  }

  /** Every reachable state is in order. */
  lemma {:induction false} RunKeepsInv(s: State, events: seq<Event>, t: State)
    requires Inv(s) && Reaches(s, events, t)
    ensures Inv(t)
    decreases |events|
  {
    hide Inv, Enabled, Apply;
    if events != [] {
      StepKeepsInv(s, events[0]);
      RunKeepsInv(Apply(s, events[0]), events[1..], t);
    }
  }

  /** Each accepted task is dequeued at most once and in order, and every one was run when the destructor has returned. */
  lemma EveryTaskRuns(s: State, events: seq<Event>, t: State)
    requires Initial(s) && Reaches(s, events, t)
    ensures t.dequeued <= t.accepted
    ensures t.closer == Closed ==> t.dequeued == t.accepted && t.finished == multiset(t.accepted)
  {
    InitialInv(s);
    RunKeepsInv(s, events, t);
    hide Reaches, Initial;
    if t.closer == Closed {
      NothingRunning(t.workers);
      assert t.workers[0] == Returned;
    }
  }

  /** While a task is queued, a worker is awake or about to be woken. */
  lemma NoTaskForgotten(s: State, events: seq<Event>, t: State)
    requires Initial(s) && Reaches(s, events, t) && t.tasks != []
    ensures SomeActive(t) || t.pending > 0 || t.closer == NotifyingAll
  {
    InitialInv(s);
    RunKeepsInv(s, events, t);
  }

  // ---- shutting down ----

  function Weight(x: Worker): nat {
    match x
    case Running(_) => 2
    case Checking => 1
    case Waiting => 0
    case Returned => 0
  }

  function TotalWeight(workers: seq<Worker>): nat {
    if workers == [] then 0 else TotalWeight(workers[..|workers| - 1]) + Weight(workers[|workers| - 1])
  }

  /** The worker steps left once nothing new is accepted. */
  function StepsLeft(s: State): nat {
    2 * |s.tasks| + TotalWeight(s.workers)
  }

  lemma {:induction false} OneWeight(workers: seq<Worker>, w: nat, x: Worker)
    requires w < |workers|
    ensures TotalWeight(workers[w := x]) + Weight(workers[w]) == TotalWeight(workers) + Weight(x)
  {
    var n := |workers| - 1;
    if w == n {
      assert workers[w := x][..n] == workers[..n];
    } else {
      OneWeight(workers[..n], w, x);
      assert workers[w := x][..n] == workers[..n][w := x];
    }
  }

  /** When the destructor waits, every worker step brings the end nearer and nothing else matters. */
  lemma Draining(s: State, e: Event)
    requires Inv(s) && s.closer == Joining && Enabled(s, e)
    ensures e.Check? || e.Finish? ==> StepsLeft(Apply(s, e)) < StepsLeft(s)
    ensures e.Submit? || e.NotifyOne? || e.Join? ==> StepsLeft(Apply(s, e)) == StepsLeft(s)
    ensures !e.WakeUp? && !e.SetStop? && !e.NotifyAll?
  {
    match e
    case Check(w) =>
      OneWeight(s.workers, w, Apply(s, e).workers[w]);
    case Finish(w) =>
      OneWeight(s.workers, w, Checking);
    case Submit(_) =>
    case NotifyOne(_) =>
    case WakeUp(_) =>
    case SetStop =>
    case NotifyAll =>
    case Join =>
  }

  /** The waiting destructor can return, or a worker can step. */
  lemma CloserNotStuck(s: State) returns (e: Event)
    requires Inv(s) && s.closer == Joining
    ensures Enabled(s, e) && (e.Join? || e.Check? || e.Finish?)
  {
    if AllReturned(s) {
      return Join;
    }
    var w :| 0 <= w < |s.workers| && s.workers[w] != Returned;
    assert s.workers[w] != Waiting;
    if s.workers[w] == Checking {
      return Check(w);
    }
    return Finish(w);
  }

  /** So the destructor returns after at most `StepsLeft` worker steps. */
  lemma {:induction false} CanClose(s: State) returns (events: seq<Event>, t: State)
    requires Inv(s) && s.closer == Joining
    ensures Reaches(s, events, t) && t.closer == Closed && |events| <= StepsLeft(s) + 1
    decreases StepsLeft(s)
  {
    var e := CloserNotStuck(s);
    StepKeepsInv(s, e);
    Draining(s, e);
    if e.Join? {
      t := Apply(s, e);
      events := [e];
      assert Reaches(t, events[1..], t);
    } else {
      assert Apply(s, e).closer == Joining;
      var rest;
      rest, t := CanClose(Apply(s, e));
      events := [e] + rest;
      assert events[1..] == rest;
    }
  }

  // ---- connection slots ----

  /**
    The counter of connections.  `undoing` counts the callers that raised it
    above the limit and have not yet lowered it again; `admitted` counts the
    connections that hold a slot.
   */
  datatype Slots = Slots(active: int, undoing: nat, admitted: nat)

  datatype SlotEvent = Acquire | Undo | Release

  predicate SlotEnabled(s: Slots, e: SlotEvent) {
    match e
    case Acquire => true
    case Undo => s.undoing > 0
    case Release => s.admitted > 0
  }

  /** One atomic step on the counter. */
  function SlotStep(s: Slots, e: SlotEvent, max: int): Slots
    requires SlotEnabled(s, e)
  {
    match e
    case Acquire =>
      var current := s.active + 1;
      if current > max then s.(active := current, undoing := s.undoing + 1) else s.(active := current, admitted := s.admitted + 1)
    case Undo => s.(active := s.active - 1, undoing := s.undoing - 1)
    case Release => s.(active := s.active - 1, admitted := s.admitted - 1)
  }

  predicate SlotInv(s: Slots, max: int) {
    s.active == s.admitted + s.undoing && (s.admitted == 0 || s.admitted <= max)
  }

  ghost predicate SlotReaches(s: Slots, events: seq<SlotEvent>, t: Slots, max: int)
    decreases |events|
  {
    if events == [] then s == t
    else SlotEnabled(s, events[0]) && SlotReaches(SlotStep(s, events[0], max), events[1..], t, max)
  }

  /** In every run, with any number of callers, no more connections are admitted than allowed. */
  lemma {:induction false} AdmittedBounded(s: Slots, events: seq<SlotEvent>, t: Slots, max: int)
    requires SlotInv(s, max) && SlotReaches(s, events, t, max)
    ensures SlotInv(t, max)
    decreases |events|
  {
    if events != [] {
      AdmittedBounded(SlotStep(s, events[0], max), events[1..], t, max);
    }
  }

  /** With one accepting thread, a connection is turned away exactly when the limit is reached. */
  lemma TurnedAwayWhenFull(s: Slots, max: int)
    requires SlotInv(s, max) && s.undoing == 0
    ensures SlotStep(s, Acquire, max).admitted == s.admitted + 1 <==> s.admitted < max
    ensures SlotStep(s, Acquire, max).undoing == 1 <==> s.admitted >= max
    ensures s.admitted >= max ==> SlotStep(SlotStep(s, Acquire, max), Undo, max) == s
  {}
}
