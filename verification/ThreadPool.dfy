/**
 The thread pool as interleaved atomic steps. The mutex makes each critical section one
 step; the notifications happen outside it and are steps of their own, and a waiting
 thread may wake without any. The object's methods are those steps.
 */
module ThreadPools {

  type Task = nat

  /** Awake: wants the mutex, to test the wait predicate. Running: outside the mutex, in a task. */
  datatype Worker = Awake | Sleeping | Running(task: Task) | Exited

  /** Open: not being destroyed. Stopping: the flag is set, notify_all is due. Joining: notified. */
  datatype Shutdown = Open | Stopping | Joining | Joined

  datatype State = State(
    tasks: seq<Task>,       // the queue
    stop: bool,
    workers: seq<Worker>,
    notifies: nat,          // enqueuers between unlock and notify_one
    shutdown: Shutdown,
    accepted: seq<Task>,    // history, in order of acceptance
    started: seq<Task>,     // history, in order of dequeuing
    finished: seq<Task>)    // history, in order of completion

  datatype Step =
    | Enqueue(task: Task)
    | NotifyOne(woken: int)       // the worker woken; ignored when none sleeps
    | LockAndTest(worker: nat)
    | Finish(worker: nat)
    | WakeSpuriously(worker: nat)
    | SetStop
    | NotifyAll
    | Join

  function Init(numThreads: nat): State {
    State([], false, seq(numThreads, i => Awake), 0, Open, [], [], [])
  }

  predicate SomeAsleep(ws: seq<Worker>) { exists i :: 0 <= i < |ws| && ws[i].Sleeping? }

  predicate SomeExited(ws: seq<Worker>) { exists i :: 0 <= i < |ws| && ws[i].Exited? }

  predicate AllExited(ws: seq<Worker>) { forall i :: 0 <= i < |ws| ==> ws[i].Exited? }

  predicate Enabled(s: State, step: Step) {
    s.shutdown != Joined &&
    match step
    case Enqueue(_) => true
    case NotifyOne(w) => s.notifies > 0 && (SomeAsleep(s.workers) ==> 0 <= w < |s.workers| && s.workers[w].Sleeping?)
    case LockAndTest(w) => w < |s.workers| && s.workers[w].Awake?
    case Finish(w) => w < |s.workers| && s.workers[w].Running?
    case WakeSpuriously(w) => w < |s.workers| && s.workers[w].Sleeping?
    case SetStop => s.shutdown == Open
    case NotifyAll => s.shutdown == Stopping
    case Join => s.shutdown == Joining && AllExited(s.workers)
  }

  function WakeAll(ws: seq<Worker>): (r: seq<Worker>)
    ensures |r| == |ws|
  {
    seq(|ws|, i requires 0 <= i < |ws| => if ws[i].Sleeping? then Awake else ws[i])
  }

  function Next(s: State, step: Step): State
    requires Enabled(s, step)
  {
    match step
    case Enqueue(t) =>
      if s.stop then s
      else s.(tasks := s.tasks + [t], notifies := s.notifies + 1, accepted := s.accepted + [t])
    case NotifyOne(w) =>
      if SomeAsleep(s.workers) then s.(notifies := s.notifies - 1, workers := s.workers[w := Awake])
      else s.(notifies := s.notifies - 1)
    case LockAndTest(w) =>
      if !s.stop && s.tasks == [] then s.(workers := s.workers[w := Sleeping])
      else if s.tasks == [] then s.(workers := s.workers[w := Exited])
      else s.(workers := s.workers[w := Running(s.tasks[0])], tasks := s.tasks[1..], started := s.started + [s.tasks[0]])
    case Finish(w) =>
      s.(workers := s.workers[w := Awake], finished := s.finished + [s.workers[w].task])
    case WakeSpuriously(w) => s.(workers := s.workers[w := Awake])
    case SetStop => s.(stop := true, shutdown := Stopping)
    case NotifyAll => s.(workers := WakeAll(s.workers), shutdown := Joining)
    case Join => s.(shutdown := Joined)
  }

  // ---------- The object ----------

  class ThreadPool {
    var tasks: seq<Task>
    var stop: bool
    var threads: seq<Worker>
    var notifies: nat
    var shutdown: Shutdown
    ghost var accepted: seq<Task>
    ghost var started: seq<Task>
    ghost var finished: seq<Task>

    ghost function Value(): State
      reads this
    {
      State(tasks, stop, threads, notifies, shutdown, accepted, started, finished)
    }

    constructor (numThreads: nat)
      ensures Value() == Init(numThreads)
    {
      tasks, stop, threads, notifies, shutdown := [], false, [], 0, Open;
      accepted, started, finished := [], [], [];
      new;
      for i := 0 to numThreads
        invariant Value() == Init(i)
      {
        threads := threads + [Awake];
      }
    }

    /** The locked part of enqueue; afterwards the caller owes a notify_one if it was accepted. */
    method Enqueue(task: Task)
      requires Enabled(Value(), Step.Enqueue(task))
      modifies this
      ensures Value() == Next(old(Value()), Step.Enqueue(task))
    {
      if stop {
        return;
      }
      tasks := tasks + [task];
      notifies := notifies + 1;
      accepted := accepted + [task];
    }

    /** notify_one: the scheduler picks which sleeping worker, if any. */
    method NotifyOne(woken: int)
      requires Enabled(Value(), Step.NotifyOne(woken))
      modifies this
      ensures Value() == Next(old(Value()), Step.NotifyOne(woken))
    {
      notifies := notifies - 1;
      if exists i :: 0 <= i < |threads| && threads[i].Sleeping? {
        threads := threads[woken := Awake];
      }
    }

    /** One pass of a worker through the critical section of its loop. */
    method LockAndTest(w: nat)
      requires Enabled(Value(), Step.LockAndTest(w))
      modifies this
      ensures Value() == Next(old(Value()), Step.LockAndTest(w))
    {
      if !(stop || tasks != []) {
        threads := threads[w := Sleeping];
        return;
      }
      if stop && tasks == [] {
        threads := threads[w := Exited];
        return;
      }
      var task := tasks[0];
      tasks := tasks[1..];
      threads := threads[w := Running(task)];
      started := started + [task];
    }

    method Finish(w: nat)
      requires Enabled(Value(), Step.Finish(w))
      modifies this
      ensures Value() == Next(old(Value()), Step.Finish(w))
    {
      finished := finished + [threads[w].task];
      threads := threads[w := Awake];
    }

    /** The locked part of the destructor. */
    method SetStop()
      requires Enabled(Value(), Step.SetStop)
      modifies this
      ensures Value() == Next(old(Value()), Step.SetStop)
    {
      stop := true;
      shutdown := Stopping;
    }

    method NotifyAll()
      requires Enabled(Value(), Step.NotifyAll)
      modifies this
      ensures Value() == Next(old(Value()), Step.NotifyAll)
    {
      threads := WakeAll(threads);
      shutdown := Joining;
    }

    /** The destructor returns when every thread has been joined. */
    method Join()
      requires Enabled(Value(), Step.Join)
      modifies this
      ensures Value() == Next(old(Value()), Step.Join)
    {
      shutdown := Joined;
    }
  }

  // ---------- Counting workers ----------

  function CountAwake(ws: seq<Worker>): nat {
    if ws == [] then 0 else CountAwake(ws[..|ws| - 1]) + if ws[|ws| - 1].Awake? then 1 else 0
  }

  /** How many workers run the task. */
  function RunCount(ws: seq<Worker>, t: Task): nat {
    if ws == [] then 0 else RunCount(ws[..|ws| - 1], t) + if ws[|ws| - 1] == Running(t) then 1 else 0
  }

  lemma {:induction false} UpdateAwake(ws: seq<Worker>, i: nat, w: Worker)
    requires i < |ws|
    ensures CountAwake(ws[i := w]) + (if ws[i].Awake? then 1 else 0) == CountAwake(ws) + if w.Awake? then 1 else 0
    decreases |ws|
  {
    var n := |ws| - 1;
    if i < n {
      UpdateAwake(ws[..n], i, w);
      assert ws[i := w][..n] == ws[..n][i := w];
    } else {
      assert ws[i := w][..n] == ws[..n];
    }
  }

  lemma {:induction false} UpdateRunning(ws: seq<Worker>, i: nat, w: Worker, t: Task)
    requires i < |ws|
    ensures RunCount(ws[i := w], t) + (if ws[i] == Running(t) then 1 else 0)
         == RunCount(ws, t) + if w == Running(t) then 1 else 0
    decreases |ws|
  {
    var n := |ws| - 1;
    if i < n {
      UpdateRunning(ws[..n], i, w, t);
      assert ws[i := w][..n] == ws[..n][i := w];
    } else {
      assert ws[i := w][..n] == ws[..n];
    }
  }

  lemma Update(ws: seq<Worker>, i: nat, w: Worker)
    requires i < |ws|
    ensures CountAwake(ws[i := w]) + (if ws[i].Awake? then 1 else 0) == CountAwake(ws) + if w.Awake? then 1 else 0
    ensures SomeAsleep(ws[i := w]) ==> w.Sleeping? || SomeAsleep(ws)
    ensures SomeExited(ws[i := w]) ==> w.Exited? || SomeExited(ws)
  {
    UpdateAwake(ws, i, w);
    var vs := ws[i := w];
    if j :| 0 <= j < |vs| && vs[j].Sleeping? {
      assert j != i ==> ws[j].Sleeping?;
    }
    if j :| 0 <= j < |vs| && vs[j].Exited? {
      assert j != i ==> ws[j].Exited?;
    }
  }

  lemma {:induction false} WakeAllRuns(ws: seq<Worker>, t: Task)
    ensures RunCount(WakeAll(ws), t) == RunCount(ws, t)
    decreases |ws|
  {
    if ws != [] {
      WakeAllRuns(ws[..|ws| - 1], t);
      assert WakeAll(ws)[..|ws| - 1] == WakeAll(ws[..|ws| - 1]);
    }
  }

  lemma {:induction false} NoneRunning(ws: seq<Worker>, t: Task)
    requires forall i :: 0 <= i < |ws| ==> !ws[i].Running?
    ensures RunCount(ws, t) == 0
    decreases |ws|
  {
    if ws != [] { NoneRunning(ws[..|ws| - 1], t); }
  }

  lemma {:induction false} NoneAwake(ws: seq<Worker>)
    requires forall i :: 0 <= i < |ws| ==> !ws[i].Awake?
    ensures CountAwake(ws) == 0
    decreases |ws|
  {
    if ws != [] { NoneAwake(ws[..|ws| - 1]); }
  }

  // ---------- The invariant ----------

  /** Every queued task is matched by a pending notification or a worker about to look. */
  ghost predicate NoLostWakeup(s: State) {
    SomeAsleep(s.workers) ==>
      && |s.tasks| <= s.notifies + CountAwake(s.workers)
      && (s.stop ==> s.shutdown == Stopping)
  }

  ghost predicate StartedRunOrFinished(started: seq<Task>, finished: seq<Task>, ws: seq<Worker>) {
    forall t :: multiset(started)[t] == multiset(finished)[t] + RunCount(ws, t)
  }

  /** Accepted tasks are exactly the started ones followed by the queue; started ones run or have finished. */
  ghost predicate Conserved(s: State) {
    s.accepted == s.started + s.tasks && StartedRunOrFinished(s.started, s.finished, s.workers)
  }

  ghost predicate Inv(s: State) {
    && NoLostWakeup(s)
    && Conserved(s)
    && (s.stop <==> s.shutdown != Open)
    && (SomeExited(s.workers) ==> s.stop && s.tasks == [])
    && (s.shutdown == Joined ==> AllExited(s.workers))
  }

  lemma InitInv(n: nat)
    ensures Inv(Init(n))
  {
    forall t ensures RunCount(Init(n).workers, t) == 0 { NoneRunning(Init(n).workers, t); }
  }

  lemma LockAndTestKeepsInv(s: State, w: nat)
    requires Inv(s) && Enabled(s, LockAndTest(w))
    ensures Inv(Next(s, LockAndTest(w)))
  {
    var s' := Next(s, LockAndTest(w));
    Update(s.workers, w, s'.workers[w]);
    RunsKept(s, w, s'.workers[w], s'.started, s'.finished);
    assert s.accepted == s'.started + s'.tasks;
  }

  lemma CountAppended(a: seq<Task>, t: Task, x: Task)
    ensures multiset(a + [t])[x] == multiset(a)[x] + if x == t then 1 else 0
  {
    assert multiset(a + [t]) == multiset(a) + multiset{t};
  }

  /** One worker changes from `ws[i]` to `w`: started and finished tasks still differ by the running ones. */
  lemma RunsKept(s: State, i: nat, w: Worker, started: seq<Task>, finished: seq<Task>)
    requires StartedRunOrFinished(s.started, s.finished, s.workers) && i < |s.workers|
    requires if w.Running? then started == s.started + [w.task] else started == s.started
    requires if s.workers[i].Running? then finished == s.finished + [s.workers[i].task] else finished == s.finished
    ensures StartedRunOrFinished(started, finished, s.workers[i := w])
  {
    forall t ensures multiset(started)[t] == multiset(finished)[t] + RunCount(s.workers[i := w], t) {
      UpdateRunning(s.workers, i, w, t);
      assert multiset(s.started)[t] == multiset(s.finished)[t] + RunCount(s.workers, t);
      if w.Running? { CountAppended(s.started, w.task, t); }
      if s.workers[i].Running? { CountAppended(s.finished, s.workers[i].task, t); }
    }
  }

  lemma FinishKeepsInv(s: State, w: nat)
    requires Inv(s) && Enabled(s, Finish(w))
    ensures Inv(Next(s, Finish(w)))
  {
    var s' := Next(s, Finish(w));
    Update(s.workers, w, Awake);
    RunsKept(s, w, Awake, s'.started, s'.finished);
  }

  lemma WakeKeepsInv(s: State, w: nat, notifies: nat)
    requires Inv(s) && w < |s.workers| && s.workers[w].Sleeping? && notifies <= s.notifies <= notifies + 1
    requires s.shutdown != Joined
    ensures Inv(s.(workers := s.workers[w := Awake], notifies := notifies))
  {
    Update(s.workers, w, Awake);
    RunsKept(s, w, Awake, s.started, s.finished);
    assert SomeAsleep(s.workers);
  }

  lemma NotifyAllKeepsInv(s: State)
    requires Inv(s) && Enabled(s, NotifyAll)
    ensures Inv(Next(s, NotifyAll))
  {
    var ws := WakeAll(s.workers);
    forall t ensures RunCount(ws, t) == RunCount(s.workers, t) { WakeAllRuns(s.workers, t); }
    if i :| 0 <= i < |ws| && ws[i].Exited? {
      assert s.workers[i].Exited?;
    }
  }

  /** Every step of every interleaving keeps the invariant. */
  lemma StepKeepsInv(s: State, step: Step)
    requires Inv(s) && Enabled(s, step)
    ensures Inv(Next(s, step))
  {
    match step
    case Enqueue(t) => assert s.accepted + [t] == s.started + (s.tasks + [t]);
    case NotifyOne(w) => if SomeAsleep(s.workers) { WakeKeepsInv(s, w, s.notifies - 1); }
    case LockAndTest(w) => LockAndTestKeepsInv(s, w);
    case Finish(w) => FinishKeepsInv(s, w);
    case WakeSpuriously(w) => WakeKeepsInv(s, w, s.notifies);
    case SetStop =>
    case NotifyAll => NotifyAllKeepsInv(s);
    case Join =>
  }

  // ---------- Runs ----------

  /** The states a sequence of steps goes through. */
  ghost predicate IsRun(states: seq<State>, steps: seq<Step>) {
    |states| == |steps| + 1
    && forall i :: 0 <= i < |steps| ==> Enabled(states[i], steps[i]) && states[i + 1] == Next(states[i], steps[i])
  }

  ghost predicate Reachable(s: State, numThreads: nat) {
    exists states, steps :: IsRun(states, steps) && states[0] == Init(numThreads) && states[|steps|] == s
  }

  lemma RunStep(states: seq<State>, steps: seq<Step>, i: nat)
    requires IsRun(states, steps) && 0 < i < |states|
    ensures Enabled(states[i - 1], steps[i - 1]) && states[i] == Next(states[i - 1], steps[i - 1])
    ensures |states[i].workers| == |states[i - 1].workers|
  {
    var s, step := states[i - 1], steps[i - 1];
    assert Enabled(s, step) && states[i - 1 + 1] == Next(s, step);
  }

  lemma {:induction false} RunKeepsInv(states: seq<State>, steps: seq<Step>, i: nat)
    requires IsRun(states, steps) && Inv(states[0]) && i < |states|
    ensures Inv(states[i]) && |states[i].workers| == |states[0].workers|
  {
    if i > 0 {
      RunKeepsInv(states, steps, i - 1);
      RunStep(states, steps, i);
      StepKeepsInv(states[i - 1], steps[i - 1]);
    }
  }

  lemma ReachableInv(s: State, n: nat)
    requires Reachable(s, n)
    ensures Inv(s) && |s.workers| == n
  {
    var states, steps :| IsRun(states, steps) && states[0] == Init(n) && states[|steps|] == s;
    InitInv(n);
    RunKeepsInv(states, steps, |steps|);
  }

  // ---------- Main results ----------

  /**
   No lost wakeup: while some worker sleeps, queued tasks never outnumber the pending notifications
   and the awake workers, and after stop a notify_all is still due. So a queued task never faces
   only sleeping workers with no notification on its way.
   */
  lemma QueuedTaskIsSeen(s: State, n: nat)
    requires Reachable(s, n) && n > 0
    ensures SomeAsleep(s.workers) ==>
              |s.tasks| <= s.notifies + CountAwake(s.workers) && (s.stop ==> s.shutdown == Stopping)
    ensures s.tasks != [] ==>
              s.notifies > 0 || exists w :: 0 <= w < |s.workers| && (s.workers[w].Awake? || s.workers[w].Running?)
  {
    ReachableInv(s, n);
    if s.tasks != [] && forall w :: 0 <= w < n ==> !s.workers[w].Awake? && !s.workers[w].Running? {
      NoneAwake(s.workers);
      assert s.workers[0].Sleeping?;
    }
  }

  /** Tasks start in the order in which they were accepted, none lost and none twice. */
  lemma TasksConserved(s: State, n: nat)
    requires Reachable(s, n)
    ensures s.accepted == s.started + s.tasks
    ensures forall t :: multiset(s.accepted)[t]
                        == multiset(s.tasks)[t] + RunCount(s.workers, t) + multiset(s.finished)[t]
  {
    ReachableInv(s, n);
    assert multiset(s.started + s.tasks) == multiset(s.started) + multiset(s.tasks);
  }

  /** With nothing queued and nobody running, everything accepted has finished. */
  lemma AllFinished(s: State, n: nat)
    requires Reachable(s, n) && s.tasks == [] && forall i :: 0 <= i < |s.workers| ==> !s.workers[i].Running?
    ensures multiset(s.finished) == multiset(s.accepted)
  {
    TasksConserved(s, n);
    forall t ensures multiset(s.finished)[t] == multiset(s.accepted)[t] { NoneRunning(s.workers, t); }
  }

  /** When the destructor has returned every accepted task has run exactly once - given at least one worker. */
  lemma DrainedWhenJoined(s: State, n: nat)
    requires Reachable(s, n) && s.shutdown == Joined
    ensures multiset(s.finished) == multiset(s.accepted) <==> n > 0 || s.accepted == []
    ensures n > 0 ==> s.tasks == [] && s.started == s.accepted
  {
    ReachableInv(s, n);
    if n > 0 {
      assert s.workers[0].Exited?;
      assert s.started + [] == s.started;
      AllFinished(s, n);
    } else {
      NoWorkerNoWork(s);
      if s.accepted != [] {
        assert s.accepted[0] in multiset(s.accepted);
      }
    }
  }

  /** A pool without workers can be destroyed with an accepted task that never ran. */
  lemma TaskLostWithoutWorkers(t: Task) returns (s: State)
    ensures Reachable(s, 0) && s.shutdown == Joined && s.accepted == [t] && s.started == [] && s.finished == []
  {
    var s0 := Init(0);
    var s1 := Next(s0, Enqueue(t));
    var s2 := Next(s1, SetStop);
    var s3 := Next(s2, NotifyAll);
    s := Next(s3, Join);
    assert IsRun([s0, s1, s2, s3, s], [Enqueue(t), SetStop, NotifyAll, Join]);
  }

  lemma NoWorkerNoWork(s: State)
    requires Reachable(s, 0)
    ensures s.started == [] && s.finished == []
  {
    var states, steps :| IsRun(states, steps) && states[0] == Init(0) && states[|steps|] == s;
    IdleRun(states, steps, |steps|);
  }

  lemma {:induction false} IdleRun(states: seq<State>, steps: seq<Step>, i: nat)
    requires IsRun(states, steps) && states[0] == Init(0) && i < |states|
    ensures states[i].workers == [] && states[i].started == [] && states[i].finished == []
  {
    if i > 0 { IdleRun(states, steps, i - 1); }
  }

  // ---------- Shutdown ----------

  function Weight(w: Worker): nat {
    match w
    case Sleeping => 3
    case Running(_) => 2
    case Awake => 1
    case Exited => 0
  }

  function Weights(ws: seq<Worker>): nat {
    if ws == [] then 0 else Weights(ws[..|ws| - 1]) + Weight(ws[|ws| - 1])
  }

  /** What is left to do once stop is set. */
  function Remaining(s: State): nat {
    2 * |s.tasks| + s.notifies + Weights(s.workers)
    + match s.shutdown case Open => 3 case Stopping => 2 case Joining => 1 case Joined => 0
  }

  lemma {:induction false} UpdateWeights(ws: seq<Worker>, i: nat, w: Worker)
    requires i < |ws|
    ensures Weights(ws[i := w]) + Weight(ws[i]) == Weights(ws) + Weight(w)
    decreases |ws|
  {
    var n := |ws| - 1;
    if i < n {
      UpdateWeights(ws[..n], i, w);
      assert ws[i := w][..n] == ws[..n][i := w];
    } else {
      assert ws[i := w][..n] == ws[..n];
    }
  }

  lemma {:induction false} WakeAllLightens(ws: seq<Worker>)
    ensures Weights(WakeAll(ws)) <= Weights(ws)
    decreases |ws|
  {
    if ws != [] {
      WakeAllLightens(ws[..|ws| - 1]);
      assert WakeAll(ws)[..|ws| - 1] == WakeAll(ws[..|ws| - 1]);
    }
  }

  /** Once stop is set nothing is accepted, nobody goes to sleep, and every other step leaves less to do. */
  lemma ShutdownStep(s: State, step: Step)
    requires Inv(s) && s.stop && Enabled(s, step)
    ensures var s' := Next(s, step);
            && s'.stop && s'.accepted == s.accepted
            && (forall w :: 0 <= w < |s.workers| && s'.workers[w].Sleeping? ==> s.workers[w].Sleeping?)
            && if step.Enqueue? then s' == s else Remaining(s') < Remaining(s)
  {
    match step
    case NotifyOne(w) => if SomeAsleep(s.workers) { UpdateWeights(s.workers, w, Awake); }
    case LockAndTest(w) => UpdateWeights(s.workers, w, Next(s, step).workers[w]);
    case Finish(w) => UpdateWeights(s.workers, w, Awake);
    case WakeSpuriously(w) => UpdateWeights(s.workers, w, Awake);
    case NotifyAll => WakeAllLightens(s.workers);
    case _ =>
  }

  function Effective(steps: seq<Step>): nat {
    if steps == [] then 0
    else Effective(steps[..|steps| - 1]) + if steps[|steps| - 1].Enqueue? then 0 else 1
  }

  /** A run without its last step is a run. */
  lemma RunPrefix(states: seq<State>, steps: seq<Step>)
    requires IsRun(states, steps) && steps != []
    ensures var n := |steps| - 1;
            && IsRun(states[..n + 1], steps[..n]) && states[..n + 1][0] == states[0] && states[..n + 1][n] == states[n]
            && Enabled(states[n], steps[n]) && states[n + 1] == Next(states[n], steps[n])
  {
    var n := |steps| - 1;
    forall i | 0 <= i < n ensures Enabled(states[i], steps[i]) && states[i + 1] == Next(states[i], steps[i]) {}
  }

  lemma {:induction false} EffectiveBounded(states: seq<State>, steps: seq<Step>)
    requires IsRun(states, steps) && Inv(states[0]) && states[0].stop
    ensures states[|steps|].stop && Effective(steps) + Remaining(states[|steps|]) <= Remaining(states[0])
    decreases |steps|
  {
    if steps != [] {
      var n := |steps| - 1;
      RunPrefix(states, steps);
      EffectiveBounded(states[..n + 1], steps[..n]);
      RunKeepsInv(states, steps, n);
      ShutdownStep(states[n], steps[n]);
    }
  }

  /** A step of the pool itself that needs neither a caller nor a spurious wakeup. */
  predicate Internal(step: Step) {
    step.NotifyOne? || step.LockAndTest? || step.Finish? || step.NotifyAll? || step.Join?
  }

  lemma ShutdownProgress(s: State)
    requires Inv(s) && s.stop && s.shutdown != Joined
    ensures exists step :: Internal(step) && Enabled(s, step)
  {
    if s.shutdown == Stopping {
      assert Enabled(s, NotifyAll);
    } else if AllExited(s.workers) {
      assert Enabled(s, Join);
    } else {
      var w :| 0 <= w < |s.workers| && !s.workers[w].Exited?;
      assert !SomeAsleep(s.workers);
      assert Enabled(s, if s.workers[w].Awake? then LockAndTest(w) else Finish(w));
    }
  }

  /**
   Shutdown terminates: after stop is set any run makes at most Remaining steps, and where
   the pool has no step left the destructor has returned.
   */
  lemma ShutdownTerminates(states: seq<State>, steps: seq<Step>, n: nat)
    requires IsRun(states, steps) && Reachable(states[0], n) && states[0].stop
    ensures Effective(steps) <= Remaining(states[0])
    ensures var last := states[|steps|];
            (forall step :: Internal(step) ==> !Enabled(last, step)) ==> last.shutdown == Joined
  {
    ReachableInv(states[0], n);
    EffectiveBounded(states, steps);
    RunKeepsInv(states, steps, |steps|);
    if states[|steps|].shutdown != Joined { ShutdownProgress(states[|steps|]); }
  }

  // ---------- Without shutdown ----------

  /** What is left to do while the pool is open: tasks, notifications, and workers not yet asleep. */
  function Backlog(s: State): nat {
    2 * |s.tasks| + 2 * s.notifies + Busy(s.workers)
  }

  function Busyness(w: Worker): nat {
    match w
    case Running(_) => 3
    case Awake => 2
    case Sleeping => 1
    case Exited => 0
  }

  function Busy(ws: seq<Worker>): nat {
    if ws == [] then 0 else Busy(ws[..|ws| - 1]) + Busyness(ws[|ws| - 1])
  }

  lemma {:induction false} UpdateBusy(ws: seq<Worker>, i: nat, w: Worker)
    requires i < |ws|
    ensures Busy(ws[i := w]) + Busyness(ws[i]) == Busy(ws) + Busyness(w)
    decreases |ws|
  {
    var n := |ws| - 1;
    if i < n {
      UpdateBusy(ws[..n], i, w);
      assert ws[i := w][..n] == ws[..n][i := w];
    } else {
      assert ws[i := w][..n] == ws[..n];
    }
  }

  /** While the pool is open its own steps use up a finite backlog, and where none is left all work is done. */
  lemma OpenPoolDrains(s: State, n: nat, step: Step)
    requires Reachable(s, n) && n > 0 && !s.stop
    ensures Internal(step) && Enabled(s, step) ==> Backlog(Next(s, step)) < Backlog(s) && !Next(s, step).stop
    ensures (forall step :: Internal(step) ==> !Enabled(s, step)) ==> multiset(s.finished) == multiset(s.accepted)
  {
    ReachableInv(s, n);
    if Internal(step) && Enabled(s, step) {
      match step
      case NotifyOne(w) => if SomeAsleep(s.workers) { UpdateBusy(s.workers, w, Awake); }
      case LockAndTest(w) => UpdateBusy(s.workers, w, Next(s, step).workers[w]);
      case Finish(w) => UpdateBusy(s.workers, w, Awake);
    }
    if forall step :: Internal(step) ==> !Enabled(s, step) {
      Quiet(s, n);
    }
  }

  lemma Quiet(s: State, n: nat)
    requires Reachable(s, n) && n > 0 && !s.stop && forall step :: Internal(step) ==> !Enabled(s, step)
    ensures multiset(s.finished) == multiset(s.accepted)
  {
    ReachableInv(s, n);
    forall w | 0 <= w < n ensures s.workers[w].Sleeping? {
      assert !Enabled(s, LockAndTest(w)) && !Enabled(s, Finish(w));
    }
    assert SomeAsleep(s.workers) by { assert s.workers[0].Sleeping?; }
    assert !Enabled(s, NotifyOne(0));
    NoneAwake(s.workers);
    AllFinished(s, n);
  }

  /** How much a step adds to the backlog of an open pool. */
  function Added(step: Step): nat {
    match step
    case Enqueue(_) => 4
    case WakeSpuriously(_) => 1
    case _ => 0
  }

  function AddedBy(steps: seq<Step>): nat {
    if steps == [] then 0 else AddedBy(steps[..|steps| - 1]) + Added(steps[|steps| - 1])
  }

  function InternalSteps(steps: seq<Step>): nat {
    if steps == [] then 0
    else InternalSteps(steps[..|steps| - 1]) + if Internal(steps[|steps| - 1]) then 1 else 0
  }

  lemma OpenStep(s: State, step: Step)
    requires Inv(s) && Enabled(s, step) && !Next(s, step).stop
    ensures !s.stop
    ensures Backlog(Next(s, step)) + (if Internal(step) then 1 else 0) <= Backlog(s) + Added(step)
  {
    match step
    case NotifyOne(w) => if SomeAsleep(s.workers) { UpdateBusy(s.workers, w, Awake); }
    case LockAndTest(w) => UpdateBusy(s.workers, w, Next(s, step).workers[w]);
    case Finish(w) => UpdateBusy(s.workers, w, Awake);
    case WakeSpuriously(w) => UpdateBusy(s.workers, w, Awake);
    case _ =>
  }

  lemma {:induction false} OpenRunBounded(states: seq<State>, steps: seq<Step>)
    requires IsRun(states, steps) && Inv(states[0]) && !states[|steps|].stop
    ensures InternalSteps(steps) + Backlog(states[|steps|]) <= Backlog(states[0]) + AddedBy(steps)
    decreases |steps|
  {
    if steps != [] {
      var n := |steps| - 1;
      RunKeepsInv(states, steps, n);
      RunPrefix(states, steps);
      OpenStep(states[n], steps[n]);
      OpenRunBounded(states[..n + 1], steps[..n]);
    }
  }

  /**
   Over any run of an open pool its own steps are bounded by the backlog at the start plus what enqueuers
   and spurious wakeups added; where none is left to take, everything accepted has finished.
   */
  lemma OpenRunDrains(states: seq<State>, steps: seq<Step>, n: nat)
    requires IsRun(states, steps) && Reachable(states[0], n) && n > 0 && !states[|steps|].stop
    ensures InternalSteps(steps) <= Backlog(states[0]) + AddedBy(steps)
    ensures var last := states[|steps|];
            (forall step :: Internal(step) ==> !Enabled(last, step)) ==> multiset(last.finished) == multiset(last.accepted)
  {
    ReachableInv(states[0], n);
    OpenRunBounded(states, steps);
    var last := states[|steps|];
    if forall step :: Internal(step) ==> !Enabled(last, step) {
      ReachableOn(states, steps, n);
      Quiet(last, n);
    }
  }

  /** A run from a reachable state ends in one. */
  lemma ReachableOn(states: seq<State>, steps: seq<Step>, n: nat)
    requires IsRun(states, steps) && Reachable(states[0], n)
    ensures Reachable(states[|steps|], n)
  {
    var before, first :| IsRun(before, first) && before[0] == Init(n) && before[|first|] == states[0];
    var all, path := before + states[1..], first + steps;
    forall i | 0 <= i < |path| ensures Enabled(all[i], path[i]) && all[i + 1] == Next(all[i], path[i]) {
      if i < |first| {
        assert Enabled(before[i], first[i]) && before[i + 1] == Next(before[i], first[i]);
      } else {
        var j := i - |first|;
        assert Enabled(states[j], steps[j]) && states[j + 1] == Next(states[j], steps[j]);
      }
    }
    assert IsRun(all, path) && all[|path|] == states[|steps|];
  }

  // ---------- What was enqueued ----------

  /** The tasks enqueued before stop was set, in order, read off the steps alone. */
  function Offered(steps: seq<Step>): seq<Task> {
    if steps == [] then []
    else
      var most, last := steps[..|steps| - 1], steps[|steps| - 1];
      Offered(most) + if last.Enqueue? && SetStop !in most then [last.task] else []
  }

  lemma OfferStep(s: State, step: Step)
    requires Enabled(s, step)
    ensures Next(s, step).accepted == s.accepted + if step.Enqueue? && !s.stop then [step.task] else []
    ensures Next(s, step).stop == (s.stop || step == SetStop)
  {
  }

  /** A pool accepts exactly the tasks enqueued before stop, however many are queued already. */
  lemma {:induction false} AcceptedIsOffered(states: seq<State>, steps: seq<Step>, n: nat)
    requires IsRun(states, steps) && states[0] == Init(n)
    ensures states[|steps|].accepted == Offered(steps)
    ensures states[|steps|].stop <==> SetStop in steps
    decreases |steps|
  {
    if steps != [] {
      var k := |steps| - 1;
      RunPrefix(states, steps);
      AcceptedIsOffered(states[..k + 1], steps[..k], n);
      OfferStep(states[k], steps[k]);
      assert steps == steps[..k] + [steps[k]];
    }
  }

  /** When the destructor has returned, exactly the tasks enqueued before stop have run, started in that order. */
  lemma OfferedHaveRun(states: seq<State>, steps: seq<Step>, n: nat)
    requires IsRun(states, steps) && states[0] == Init(n) && n > 0 && states[|steps|].shutdown == Joined
    ensures states[|steps|].started == Offered(steps)
    ensures multiset(states[|steps|].finished) == multiset(Offered(steps))
  {
    AcceptedIsOffered(states, steps, n);
    assert Reachable(states[|steps|], n);
    DrainedWhenJoined(states[|steps|], n);
  }
}
