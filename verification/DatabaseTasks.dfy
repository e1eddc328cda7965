/**
 * src/databasetasks.cpp: one worker thread, any number of threads calling addTask, flush and shutdown, a mutex and
 * two condition variables. A section that runs under the mutex is one atomic step, but for addTask, which looks at the
 * state first: stop writes the state without the mutex, so it may come in between. A notification sent after the
 * mutex was released is a step of its own, and a waiting thread may also wake up without one.
 */
module DatabaseTasks {
  import opened Options

  type Task = nat

  datatype ThreadState = Running | Closing | Terminated

  /** What the mutex protects. */
  datatype Shared = Shared(mode: ThreadState, tasks: seq<Task>, active: nat)

  /** addTask once it has seen the state Running: the task is queued; whether a signal follows. */
  function Push(sh: Shared, t: Task): (Shared, bool) {
    (sh.(tasks := sh.tasks + [t]), sh.tasks == [])
  }

  /** addTask under the mutex: whether the task is accepted and whether a signal follows. */
  function Enqueue(sh: Shared, t: Task): (Shared, bool, bool) {
    if sh.mode == Running then
      var (after, signal) := Push(sh, t);
      (after, true, signal)
    else (sh, false, false)
  }

  /** The wait predicate of the worker. */
  predicate WorkerMayRun(sh: Shared) {
    sh.mode == Terminated || sh.tasks != []
  }

  /** The wait predicate of flush. */
  predicate Drained(sh: Shared) {
    sh.tasks == [] && sh.active == 0
  }

  /** threadMain up to the unlock: the task taken, or None when the worker leaves its loop. */
  function Take(sh: Shared): (Shared, Option<Task>) {
    if sh.tasks == [] then (sh, None)
    else (sh.(tasks := sh.tasks[1..], active := sh.active + 1), Some(sh.tasks[0]))
  }

  /** threadMain after the task has run; whether flushers are notified. */
  function Finished(sh: Shared): (Shared, bool)
    requires sh.active > 0
  {
    var after := sh.(active := sh.active - 1);
    (after, Drained(after))
  }

  /** shutdown under the mutex */
  function ShutDown(sh: Shared): Shared {
    sh.(mode := Terminated)
  }

  /** The fields of the source's class and its sections under the mutex. */
  class Monitor {
    var threadState: ThreadState
    var tasks: seq<Task>
    var activeTasks: nat

    function View(): Shared
      reads this
    {
      Shared(threadState, tasks, activeTasks)
    }

    constructor ()
      ensures View() == Shared(Running, [], 0)
    {
      threadState, tasks, activeTasks := Running, [], 0;
    }

    method AddTask(t: Task) returns (accepted: bool, signal: bool)
      modifies this
      ensures (View(), accepted, signal) == Enqueue(old(View()), t)
      ensures accepted == (old(threadState) == Running) && signal == (accepted && old(tasks) == [])
      ensures tasks == (if accepted then old(tasks) + [t] else old(tasks))
      ensures threadState == old(threadState) && activeTasks == old(activeTasks)
    {
      accepted, signal := false, false;
      if threadState == Running {
        accepted, signal := true, tasks == [];
        tasks := tasks + [t];
      }
    }

    method TakeTask() returns (task: Option<Task>)
      requires WorkerMayRun(View())
      modifies this
      ensures (View(), task) == Take(old(View()))
      ensures task.Some? <==> old(tasks) != []
      ensures task.Some? ==> old(tasks) == [task.value] + tasks && activeTasks == old(activeTasks) + 1
    {
      if tasks == [] {
        return None;
      }
      task := Some(tasks[0]);
      tasks := tasks[1..];
      activeTasks := activeTasks + 1;
    }

    method FinishTask() returns (notify: bool)
      requires activeTasks > 0
      modifies this
      ensures (View(), notify) == Finished(old(View()))
      ensures activeTasks == old(activeTasks) - 1 && tasks == old(tasks)
      ensures notify == (tasks == [] && activeTasks == 0)
    {
      activeTasks := activeTasks - 1;
      notify := tasks == [] && activeTasks == 0;
    }

    method Terminate()
      modifies this
      ensures View() == ShutDown(old(View()))
    {
      threadState := Terminated;
    }
  }

  // ---------------------------------------------------------------- threads

  /** Top: about to take the mutex and look at the wait predicate. Leaving: out of the loop, last notification due. */
  datatype Worker = Top | Blocked | Executing(task: Task) | Executed | Leaving | Exited

  /** Where a call stands; an Admitted one holds the mutex; down marks the flush that ends a shutdown. */
  datatype Caller =
    | Adding(task: Task) | Admitted(task: Task) | Signalling | Added
    | Flushing(down: bool) | FlushBlocked(down: bool) | Flushed(down: bool)
    | ShuttingDown | ShutSignalling

  /** accepted and executed are the histories of what addTask took in and what the worker ran. */
  datatype State = State(sh: Shared, worker: Worker, callers: seq<Caller>, accepted: seq<Task>, executed: seq<Task>)

  const Initial := State(Shared(Running, [], 0), Top, [], [], [])

  /** taskDoneSignal.notify_all */
  function WakeFlushers(callers: seq<Caller>): (r: seq<Caller>)
    ensures |r| == |callers|
    ensures forall i | 0 <= i < |r| ::
              r[i] == if callers[i].FlushBlocked? then Flushing(callers[i].down) else callers[i]
  {
    if callers == [] then [] else
      [if callers[0].FlushBlocked? then Flushing(callers[0].down) else callers[0]] + WakeFlushers(callers[1..])
  }

  function WakeWorker(w: Worker): Worker {
    if w == Blocked then Top else w
  }

  datatype Step =
    | Call(caller: Caller) | Stop | SpuriousWorker | SpuriousFlusher(i: nat)  // from outside
    | Admit(i: nat) | EnqueueStep(i: nat) | NotifyOne(i: nat) | FlushCheck(i: nat) | Shut(i: nat) | NotifyAll(i: nat)
    | WorkerCheck | Execute | Finish | LastNotify

  predicate External(step: Step) {
    step.Call? || step.Stop? || step.SpuriousWorker? || step.SpuriousFlusher?
  }

  /** Nobody holds the mutex. */
  predicate Free(s: State) {
    forall i | 0 <= i < |s.callers| :: !s.callers[i].Admitted?
  }

  predicate Enabled(s: State, step: Step) {
    match step
    case Call(c) => c.Adding? || c == Flushing(false) || c.ShuttingDown?
    case Stop => true
    case SpuriousWorker => s.worker == Blocked
    case SpuriousFlusher(i) => i < |s.callers| && s.callers[i].FlushBlocked?
    case Admit(i) => i < |s.callers| && s.callers[i].Adding? && Free(s)
    case EnqueueStep(i) => i < |s.callers| && s.callers[i].Admitted?
    case NotifyOne(i) => i < |s.callers| && s.callers[i].Signalling?
    case FlushCheck(i) => i < |s.callers| && s.callers[i].Flushing? && Free(s)
    case Shut(i) => i < |s.callers| && s.callers[i].ShuttingDown? && Free(s)
    case NotifyAll(i) => i < |s.callers| && s.callers[i].ShutSignalling?
    case WorkerCheck => s.worker == Top && Free(s)
    case Execute => s.worker.Executing?
    case Finish => s.worker == Executed && s.sh.active > 0 && Free(s)
    case LastNotify => s.worker == Leaving
  }

  function Apply(s: State, step: Step): State
    requires Enabled(s, step)
  {
    match step
    case Call(c) => s.(callers := s.callers + [c])
    case Stop => s.(sh := s.sh.(mode := Closing))
    case SpuriousWorker => s.(worker := Top)
    case SpuriousFlusher(i) => s.(callers := s.callers[i := Flushing(s.callers[i].down)])
    case Admit(i) => s.(callers := s.callers[i := if s.sh.mode == Running then Admitted(s.callers[i].task) else Added])
    case EnqueueStep(i) =>
      var t := s.callers[i].task;
      var (sh, signal) := Push(s.sh, t);
      s.(sh := sh, accepted := s.accepted + [t], callers := s.callers[i := if signal then Signalling else Added])
    case NotifyOne(i) => s.(worker := WakeWorker(s.worker), callers := s.callers[i := Added])
    case FlushCheck(i) =>
      var down := s.callers[i].down;
      s.(callers := s.callers[i := if Drained(s.sh) then Flushed(down) else FlushBlocked(down)])
    case Shut(i) => s.(sh := ShutDown(s.sh), callers := s.callers[i := ShutSignalling])
    case NotifyAll(i) => s.(worker := WakeWorker(s.worker), callers := s.callers[i := Flushing(true)])
    case WorkerCheck =>
      if !WorkerMayRun(s.sh) then s.(worker := Blocked) else
        var (sh, task) := Take(s.sh);
        s.(sh := sh, worker := if task.Some? then Executing(task.value) else Leaving)
    case Execute => s.(worker := Executed, executed := s.executed + [s.worker.task])
    case Finish =>
      var (sh, notify) := Finished(s.sh);
      s.(worker := Top, sh := sh, callers := if notify then WakeFlushers(s.callers) else s.callers)
    case LastNotify => s.(worker := Exited, callers := WakeFlushers(s.callers))
  }

  /** The state after the steps, None if one of them was not enabled. */
  function After(s: State, steps: seq<Step>): Option<State>
    decreases |steps|
  {
    if steps == [] then Some(s)
    else if Enabled(s, steps[0]) then After(Apply(s, steps[0]), steps[1..])
    else None
  }

  predicate Goes(s: State, step: Step, s': State) {
    Enabled(s, step) && Apply(s, step) == s'
  }

  lemma {:induction false} PassesThrough(states: seq<State>, steps: seq<Step>)
    requires |states| == |steps| + 1
    requires forall k | 0 <= k < |steps| :: Goes(states[k], steps[k], states[k + 1])
    ensures After(states[0], steps) == Some(states[|steps|])
    decreases |steps|
  {
    if steps != [] {
      assert Goes(states[0], steps[0], states[0 + 1]);
      forall k | 0 <= k < |steps[1..]|
        ensures Goes(states[1..][k], steps[1..][k], states[1..][k + 1])
      {
        assert Goes(states[k + 1], steps[k + 1], states[k + 1 + 1]);
      }
      PassesThrough(states[1..], steps[1..]);
    }
  }

  /** Without a stop in between, the two steps of addTask do what its section under the mutex does. */
  lemma AddTaskIsTwoSteps(s: State, i: nat)
    requires Enabled(s, Admit(i))
    ensures var ((sh, accepted, signal), inside) := (Enqueue(s.sh, s.callers[i].task), Apply(s, Admit(i)));
            && accepted == Enabled(inside, EnqueueStep(i))
            && var after := if accepted then Apply(inside, EnqueueStep(i)) else inside;
               && after.sh == sh && after.callers == s.callers[i := if signal then Signalling else Added]
               && after.accepted == s.accepted + if accepted then [s.callers[i].task] else []
  {
  }

  // ---------------------------------------------------------------- what every step keeps

  function InFlight(w: Worker): seq<Task> {
    if w.Executing? then [w.task] else []
  }

  /** A thread that has changed the state but not yet sent its notification to the worker. */
  ghost predicate SignalPending(s: State) {
    exists i :: 0 <= i < |s.callers| && Owes(s.callers[i])
  }

  predicate Owes(c: Caller) {
    c.Signalling? || c.ShutSignalling?
  }

  /** Calls that exist only once a shutdown has begun. */
  predicate AfterShut(c: Caller) {
    c.ShutSignalling? || ((c.Flushing? || c.FlushBlocked? || c.Flushed?) && c.down)
  }

  /** Nothing is accepted any more, and nobody has been let in before. */
  predicate Settled(s: State) {
    s.sh.mode != Running && Free(s)
  }

  /** At most one call is let in at a time. */
  ghost predicate OneInside(s: State) {
    forall i, j | 0 <= i < |s.callers| && 0 <= j < |s.callers| ::
      s.callers[i].Admitted? && s.callers[j].Admitted? ==> i == j
  }

  ghost predicate Accounted(s: State) {
    && s.executed + InFlight(s.worker) + s.sh.tasks == s.accepted
    && s.sh.active == (if s.worker.Executing? || s.worker == Executed then 1 else 0)
  }

  ghost predicate NoLostWakeup(s: State) {
    && (s.worker == Blocked && WorkerMayRun(s.sh) ==> SignalPending(s))
    && (forall i | 0 <= i < |s.callers| :: s.callers[i].FlushBlocked? ==> !Drained(s.sh))
  }

  ghost predicate ShutdownOrder(s: State) {
    && (s.worker == Leaving || s.worker == Exited ==> s.sh.tasks == [] && Settled(s))
    && (forall i | 0 <= i < |s.callers| :: AfterShut(s.callers[i]) ==> Settled(s))
    && (forall i | 0 <= i < |s.callers| :: s.callers[i] == Flushed(true) ==> s.executed == s.accepted)
  }

  ghost predicate Inv(s: State) {
    Accounted(s) && NoLostWakeup(s) && ShutdownOrder(s) && OneInside(s)
  }

  lemma AccountedStep(s: State, step: Step)
    requires Inv(s) && Enabled(s, step)
    ensures Accounted(Apply(s, step))
  {
    var s' := Apply(s, step);
    match step
    case EnqueueStep(i) =>
      assert s.executed + InFlight(s.worker) + (s.sh.tasks + [s.callers[i].task])
             == s.executed + InFlight(s.worker) + s.sh.tasks + [s.callers[i].task];
    case WorkerCheck =>
      if s.sh.tasks != [] {
        assert s.sh.tasks == [s.sh.tasks[0]] + s.sh.tasks[1..];
      }
    case Execute =>
      assert s.executed + [s.worker.task] == s'.executed;
    case _ =>
  }

  lemma NoLostWakeupStep(s: State, step: Step)
    requires Inv(s) && Enabled(s, step)
    ensures NoLostWakeup(Apply(s, step))
  {
    var s' := Apply(s, step);
    if s'.worker == Blocked && WorkerMayRun(s'.sh) {
      if s.worker == Blocked && WorkerMayRun(s.sh) {
        var i :| 0 <= i < |s.callers| && Owes(s.callers[i]);
        assert Owes(s'.callers[i]);
      } else {
        assert Owes(s'.callers[step.i]);
      }
    }
  }

  lemma ShutdownOrderStep(s: State, step: Step)
    requires Inv(s) && Enabled(s, step)
    ensures ShutdownOrder(Apply(s, step))
  {
    hide *;
    OrderParts(s);
    OrderParts(Apply(s, step));
    WorkerLeavesSettled(s, step);
    ShutCallsAreSettled(s, step);
    ShutdownReturnsDone(s, step);
  }

  lemma OrderParts(s: State)
    ensures ShutdownOrder(s) <==>
              && (s.worker == Leaving || s.worker == Exited ==> s.sh.tasks == [] && Settled(s))
              && (forall i | 0 <= i < |s.callers| :: AfterShut(s.callers[i]) ==> Settled(s))
              && (forall i | 0 <= i < |s.callers| :: s.callers[i] == Flushed(true) ==> s.executed == s.accepted)
  {
  }

  lemma WorkerLeavesSettled(s: State, step: Step)
    requires Inv(s) && Enabled(s, step)
    ensures var s' := Apply(s, step);
            s'.worker == Leaving || s'.worker == Exited ==> s'.sh.tasks == [] && Settled(s')
  {
    if Settled(s) {
      SettledStep(s, step);
    }
  }

  lemma ShutCallsAreSettled(s: State, step: Step)
    requires Inv(s) && Enabled(s, step)
    ensures var s' := Apply(s, step);
            forall i | 0 <= i < |s'.callers| :: AfterShut(s'.callers[i]) ==> Settled(s')
  {
    if Settled(s) {
      SettledStep(s, step);
    } else {
      assert forall i | 0 <= i < |s.callers| :: !AfterShut(s.callers[i]);
    }
  }

  lemma ShutdownReturnsDone(s: State, step: Step)
    requires Inv(s) && Enabled(s, step)
    ensures var s' := Apply(s, step);
            forall i | 0 <= i < |s'.callers| :: s'.callers[i] == Flushed(true) ==> s'.executed == s'.accepted
  {
    var s' := Apply(s, step);
    forall i | 0 <= i < |s'.callers| && s'.callers[i] == Flushed(true)
      ensures s'.executed == s'.accepted
    {
      if i < |s.callers| && s.callers[i] == Flushed(true) {
        assert AfterShut(s.callers[i]);
        SettledStep(s, step);
      }
    }
  }

  lemma OneInsideStep(s: State, step: Step)
    requires Inv(s) && Enabled(s, step)
    ensures OneInside(Apply(s, step))
  {
  }

  lemma {:induction false} InvAfter(s: State, steps: seq<Step>)
    requires Inv(s) && After(s, steps).Some?
    ensures Inv(After(s, steps).value)
    decreases |steps|
  {
    if steps != [] {
      AccountedStep(s, steps[0]);
      NoLostWakeupStep(s, steps[0]);
      ShutdownOrderStep(s, steps[0]);
      OneInsideStep(s, steps[0]);
      InvAfter(Apply(s, steps[0]), steps[1..]);
    }
  }

  /** In every interleaving: tasks run once each, in order; no wakeup is lost; shutdown waits for all of them. */
  lemma ReachableInv(steps: seq<Step>)
    requires After(Initial, steps).Some?
    ensures Inv(After(Initial, steps).value)
  {
    InvAfter(Initial, steps);
  }

  lemma SettledStep(s: State, step: Step)
    requires Settled(s) && Enabled(s, step)
    ensures Settled(Apply(s, step)) && Apply(s, step).accepted == s.accepted
  {
  }

  /** Once the state has left Running and nobody is inside, nothing is accepted any more. */
  lemma {:induction false} NothingAcceptedLater(s: State, steps: seq<Step>)
    requires Settled(s) && After(s, steps).Some?
    ensures After(s, steps).value.accepted == s.accepted && Settled(After(s, steps).value)
    decreases |steps|
  {
    if steps != [] {
      SettledStep(s, steps[0]);
      NothingAcceptedLater(Apply(s, steps[0]), steps[1..]);
    }
  }

  /** A stop that comes while a call is inside lets at most the task of that call through. */
  lemma {:induction false} StopLetsOneThrough(s: State, steps: seq<Step>, i: nat)
    requires s.sh.mode != Running && OneInside(s) && After(s, steps).Some?
    requires i < |s.callers| && s.callers[i].Admitted?
    ensures var s' := After(s, steps).value;
            s'.accepted == s.accepted || s'.accepted == s.accepted + [s.callers[i].task]
    decreases |steps|
  {
    if steps != [] {
      var s' := Apply(s, steps[0]);
      if steps[0] == EnqueueStep(i) {
        assert Settled(s');
        NothingAcceptedLater(s', steps[1..]);
      } else {
        assert s'.callers[i] == s.callers[i];
        StopLetsOneThrough(s', steps[1..], i);
      }
    }
  }

  /** Some run from s ends with these tasks accepted. */
  ghost predicate MayAccept(s: State, tasks: seq<Task>) {
    exists steps :: After(s, steps).Some? && After(s, steps).value.accepted == tasks
  }

  /** Call i has seen the state Running but has not queued its task. */
  predicate Inside(s: State, i: nat) {
    i < |s.callers| && s.callers[i].Admitted?
  }

  lemma InsideGetsThrough(s: State, i: nat)
    requires Inside(s, i)
    ensures MayAccept(s, s.accepted + [s.callers[i].task])
  {
    var steps := [EnqueueStep(i)];
    assert steps[1..] == [];
    assert After(s, steps) == Some(Apply(s, EnqueueStep(i)));
  }

  /**
   * Once the state has left Running the tasks that may ever be accepted are exactly those accepted already, with or
   * without the task of a call that is inside.
   */
  lemma WhatMayStillBeAccepted(s: State, tasks: seq<Task>)
    requires s.sh.mode != Running && OneInside(s)
    ensures MayAccept(s, tasks) <==>
            tasks == s.accepted || exists i: nat :: Inside(s, i) && tasks == s.accepted + [s.callers[i].task]
  {
    if MayAccept(s, tasks) {
      var steps :| After(s, steps).Some? && After(s, steps).value.accepted == tasks;
      if i: nat :| Inside(s, i) {
        StopLetsOneThrough(s, steps, i);
      } else {
        forall i | 0 <= i < |s.callers|
          ensures !s.callers[i].Admitted?
        {
          assert !Inside(s, i);
        }
        NothingAcceptedLater(s, steps);
      }
    } else if i: nat :| Inside(s, i) && tasks == s.accepted + [s.callers[i].task] {
      InsideGetsThrough(s, i);
    } else {
      assert After(s, []) == Some(s);
    }
  }

  ghost predicate AcceptsNothing(s: State, steps: seq<Step>) {
    After(s, steps).Some? ==> After(s, steps).value.accepted == s.accepted
  }

  /** Once the state has left Running nothing more is accepted, in any run, exactly when no call is inside. */
  lemma NothingAcceptedIffFree(s: State)
    requires s.sh.mode != Running
    ensures (forall steps :: AcceptsNothing(s, steps)) <==> Free(s)
  {
    if Free(s) {
      forall steps
        ensures AcceptsNothing(s, steps)
      {
        if After(s, steps).Some? {
          NothingAcceptedLater(s, steps);
        }
      }
    } else {
      var i :| 0 <= i < |s.callers| && s.callers[i].Admitted?;
      InsideGetsThrough(s, i);
      var steps :| After(s, steps).Some? && After(s, steps).value.accepted == s.accepted + [s.callers[i].task];
      assert !AcceptsNothing(s, steps);
    }
  }

  /** A stop that comes in between: the task is accepted though the state has left Running. */
  lemma AcceptedAfterStop(t: Task)
    ensures var before := After(Initial, [Call(Adding(t)), Admit(0), Stop]);
            before.Some? && before.value.sh.mode == Closing && before.value.accepted == []
    ensures var after := After(Initial, [Call(Adding(t)), Admit(0), Stop, EnqueueStep(0)]);
            after.Some? && after.value.sh.mode == Closing && after.value.accepted == [t]
  {
    var running, closing := Shared(Running, [], 0), Shared(Closing, [], 0);
    var states := [Initial, State(running, Top, [Adding(t)], [], []), State(running, Top, [Admitted(t)], [], []),
                   State(closing, Top, [Admitted(t)], [], [])];
    PassesThrough(states, [Call(Adding(t)), Admit(0), Stop]);
    PassesThrough(states + [State(Shared(Closing, [t], 0), Top, [Signalling], [t], [])],
                  [Call(Adding(t)), Admit(0), Stop, EnqueueStep(0)]);
  }

  /** A shutdown that has returned leaves nothing undone, then or ever after. */
  lemma ShutdownIsFinal(steps: seq<Step>, later: seq<Step>, i: nat)
    requires After(Initial, steps).Some? && After(After(Initial, steps).value, later).Some?
    requires var s := After(Initial, steps).value; i < |s.callers| && s.callers[i] == Flushed(true)
    ensures var s, s' := After(Initial, steps).value, After(After(Initial, steps).value, later).value;
            s.executed == s.accepted == s'.accepted == s'.executed
  {
    var s := After(Initial, steps).value;
    ReachableInv(steps);
    NothingAcceptedLater(s, later);
    InvAfter(s, later);
    ExecutedGrows(s, later);
    var s' := After(s, later).value;
    assert s'.executed <= s'.executed + InFlight(s'.worker) + s'.sh.tasks;
  }

  lemma {:induction false} ExecutedGrows(s: State, steps: seq<Step>)
    requires After(s, steps).Some?
    ensures s.executed <= After(s, steps).value.executed
    decreases |steps|
  {
    if steps != [] {
      ExecutedGrows(Apply(s, steps[0]), steps[1..]);
    }
  }

  /** A flush returns at a moment when every task accepted so far has been executed. */
  lemma FlushReturnsWhenAllDone(steps: seq<Step>, i: nat)
    requires After(Initial, steps).Some?
    requires var s := After(Initial, steps).value;
             Enabled(s, FlushCheck(i)) && Apply(s, FlushCheck(i)).callers[i].Flushed?
    ensures var s := After(Initial, steps).value; s.executed == s.accepted
  {
    ReachableInv(steps);
  }

  // ---------------------------------------------------------------- nothing hangs

  /** No thread can move by itself. */
  ghost predicate Quiet(s: State) {
    forall step :: Enabled(s, step) ==> External(step)
  }

  /**
   * When no thread can move by itself, every accepted task has run, every call has returned, and the worker has ended
   * or sleeps in a state other than Terminated.
   */
  lemma QuietMeansDone(s: State)
    requires Inv(s) && Quiet(s)
    ensures s.sh.tasks == [] && s.sh.active == 0 && s.executed == s.accepted
    ensures forall i | 0 <= i < |s.callers| :: s.callers[i].Added? || s.callers[i].Flushed?
    ensures s.worker == Exited || (s.worker == Blocked && s.sh.mode != Terminated)
  {
    forall i | 0 <= i < |s.callers|
      ensures !s.callers[i].Admitted?
    {
      assert !Enabled(s, EnqueueStep(i));
    }
    assert !Enabled(s, WorkerCheck) && !Enabled(s, Execute) && !Enabled(s, Finish) && !Enabled(s, LastNotify);
    forall i | 0 <= i < |s.callers|
      ensures s.callers[i].Added? || s.callers[i].Flushed? || s.callers[i].FlushBlocked?
    {
      assert !Enabled(s, Admit(i)) && !Enabled(s, NotifyOne(i)) && !Enabled(s, FlushCheck(i));
      assert !Enabled(s, Shut(i)) && !Enabled(s, NotifyAll(i));
    }
  }

  function Count(callers: seq<Caller>, p: Caller -> bool): nat {
    if callers == [] then 0 else (if p(callers[0]) then 1 else 0) + Count(callers[1..], p)
  }

  lemma {:induction false} CountUpdate(callers: seq<Caller>, p: Caller -> bool, i: nat, c: Caller)
    requires i < |callers|
    ensures Count(callers[i := c], p) == Count(callers, p) - (if p(callers[i]) then 1 else 0) + (if p(c) then 1 else 0)
  {
    if i > 0 {
      assert callers[i := c][1..] == callers[1..][i - 1 := c];
      CountUpdate(callers[1..], p, i - 1, c);
    } else {
      assert callers[i := c][1..] == callers[1..];
    }
  }

  /** Waking flushers changes no count of calls that are not flushing. */
  lemma {:induction false} CountWoken(callers: seq<Caller>, p: Caller -> bool)
    requires forall c: Caller | c.Flushing? || c.FlushBlocked? :: !p(c)
    ensures Count(WakeFlushers(callers), p) == Count(callers, p)
  {
    if callers != [] {
      CountWoken(callers[1..], p);
    }
  }

  const IsUndecided: Caller -> bool := (c: Caller) => c.Adding?
  const IsEntering: Caller -> bool := (c: Caller) => c.Adding? || c.Admitted? || c.ShuttingDown?
  const IsOwing: Caller -> bool := (c: Caller) => Owes(c)
  const IsFlushing: Caller -> bool := (c: Caller) => c.Flushing?

  /** The work left, most significant part first. */
  datatype Measure = Measure(entering: nat, work: nat, life: nat, owing: nat, looking: nat, flushing: nat)

  function WorkLeft(s: State): Measure {
    var ofTask := if s.worker.Executing? then 2 else if s.worker == Executed then 1 else 0;
    Measure(Count(s.callers, IsUndecided) + Count(s.callers, IsEntering), 3 * |s.sh.tasks| + ofTask,
            if s.worker == Exited then 0 else if s.worker == Leaving then 1 else 2,
            Count(s.callers, IsOwing), if s.worker == Top then 1 else 0, Count(s.callers, IsFlushing))
  }

  predicate Less(a: Measure, b: Measure) {
    || a.entering < b.entering
    || (a.entering == b.entering &&
        (|| a.work < b.work
         || (a.work == b.work &&
             (|| a.life < b.life
              || (a.life == b.life &&
                  (|| a.owing < b.owing
                   || (a.owing == b.owing &&
                       (|| a.looking < b.looking || (a.looking == b.looking && a.flushing < b.flushing)))))))))
  }

  /** Every step a thread takes by itself leaves less work. */
  lemma InternalStepLeavesLess(s: State, step: Step)
    requires Enabled(s, step) && !External(step)
    ensures Less(WorkLeft(Apply(s, step)), WorkLeft(s))
  {
    var s' := Apply(s, step);
    if step.Finish? || step.LastNotify? {
      CountWoken(s.callers, IsEntering);
      CountWoken(s.callers, IsUndecided);
    } else if !step.WorkerCheck? && !step.Execute? {
      CountUpdate(s.callers, IsEntering, step.i, s'.callers[step.i]);
      CountUpdate(s.callers, IsUndecided, step.i, s'.callers[step.i]);
      CountUpdate(s.callers, IsOwing, step.i, s'.callers[step.i]);
      CountUpdate(s.callers, IsFlushing, step.i, s'.callers[step.i]);
    }
  }

  /** Left to themselves the threads always come to rest, whatever the schedule, with everything done. */
  lemma {:induction false} ComesToRest(s: State) returns (steps: seq<Step>)
    requires Inv(s)
    ensures (forall k | 0 <= k < |steps| :: !External(steps[k])) && After(s, steps).Some?
    ensures Quiet(After(s, steps).value)
    decreases WorkLeft(s).entering, WorkLeft(s).work, WorkLeft(s).life, WorkLeft(s).owing, WorkLeft(s).looking,
              WorkLeft(s).flushing
  {
    if Quiet(s) {
      steps := [];
    } else {
      var step :| Enabled(s, step) && !External(step);
      InternalStepLeavesLess(s, step);
      AccountedStep(s, step);
      NoLostWakeupStep(s, step);
      ShutdownOrderStep(s, step);
      OneInsideStep(s, step);
      var rest := ComesToRest(Apply(s, step));
      steps := [step] + rest;
      assert steps[1..] == rest;
    }
  }

  // ---------------------------------------------------------------- whether the worker ends

  predicate Left(w: Worker) {
    w == Leaving || w == Exited
  }

  lemma {:induction false} TerminatedStays(s: State, steps: seq<Step>)
    requires s.sh.mode == Terminated && After(s, steps).Some? && Stop !in steps
    ensures After(s, steps).value.sh.mode == Terminated
    decreases |steps|
  {
    if steps != [] {
      assert steps[0] in steps && forall step | step in steps[1..] :: step in steps;
      TerminatedStays(Apply(s, steps[0]), steps[1..]);
    }
  }

  /** After a shutdown, and without a stop, the worker has ended whenever the threads come to rest. */
  lemma WorkerEndsAfterShutdown(s: State, steps: seq<Step>)
    requires Inv(s) && s.sh.mode == Terminated && Stop !in steps
    requires After(s, steps).Some? && Quiet(After(s, steps).value)
    ensures After(s, steps).value.worker == Exited
  {
    TerminatedStays(s, steps);
    InvAfter(s, steps);
    QuietMeansDone(After(s, steps).value);
  }

  lemma LeftStaysLeft(s: State, step: Step)
    requires Enabled(s, step) && Left(s.worker)
    ensures Left(Apply(s, step).worker)
  {
  }

  lemma {:induction false} LeftForGood(s: State, steps: seq<Step>)
    requires Left(s.worker) && After(s, steps).Some?
    ensures Left(After(s, steps).value.worker)
    decreases |steps|
  {
    if steps != [] {
      LeftStaysLeft(s, steps[0]);
      LeftForGood(Apply(s, steps[0]), steps[1..]);
    }
  }

  /** No shutdown is about to set the state. */
  predicate NoneShutting(s: State) {
    forall i | 0 <= i < |s.callers| :: !s.callers[i].ShuttingDown?
  }

  lemma {:induction false} WorkerStays(s: State, steps: seq<Step>)
    requires s.sh.mode == Closing && NoneShutting(s) && !Left(s.worker)
    requires After(s, steps).Some? && forall k | 0 <= k < |steps| :: !External(steps[k])
    ensures After(s, steps).value.sh.mode == Closing && !Left(After(s, steps).value.worker)
    decreases |steps|
  {
    if steps != [] {
      assert !External(steps[0]) && forall k | 0 <= k < |steps[1..]| :: steps[1..][k] == steps[k + 1];
      WorkerStays(Apply(s, steps[0]), steps[1..]);
    }
  }

  lemma {:induction false} AfterBoth(s: State, first: seq<Step>, second: seq<Step>)
    requires After(s, first).Some?
    ensures After(s, first + second) == After(After(s, first).value, second)
    decreases |first|
  {
    if first == [] {
      assert first + second == second;
    } else {
      assert (first + second)[1..] == first[1..] + second;
      AfterBoth(Apply(s, first[0]), first[1..], second);
    }
  }

  lemma CountPositive(callers: seq<Caller>, p: Caller -> bool, i: nat)
    requires i < |callers| && p(callers[i])
    ensures Count(callers, p) > 0
  {
    if i > 0 {
      CountPositive(callers[1..], p, i - 1);
    }
  }

  /** The shutdowns that are pending set the state before the worker does anything. */
  lemma {:induction false} ShutdownsFirst(s: State) returns (steps: seq<Step>)
    ensures After(s, steps).Some? && NoneShutting(After(s, steps).value)
    ensures After(s, steps).value.worker == s.worker
    decreases Count(s.callers, IsEntering)
  {
    if NoneShutting(s) {
      steps := [];
    } else {
      var i :| 0 <= i < |s.callers| && s.callers[i].ShuttingDown?;
      var step := Shut(i);
      if !Free(s) {
        var j :| 0 <= j < |s.callers| && s.callers[j].Admitted?;
        step := EnqueueStep(j);
      }
      CountUpdate(s.callers, IsEntering, step.i, Apply(s, step).callers[step.i]);
      var rest := ShutdownsFirst(Apply(s, step));
      steps := [step] + rest;
      assert steps[1..] == rest;
    }
  }

  /** From here the worker has ended whenever the threads come to rest, whatever stops and calls there are. */
  ghost predicate WorkerWillEnd(s: State) {
    forall steps | After(s, steps).Some? && Quiet(After(s, steps).value) :: After(s, steps).value.worker == Exited
  }

  /** A stop after a shutdown takes its state back: the worker is sure to end only once it has left its loop. */
  lemma WorkerEndsForSure(s: State)
    requires Inv(s)
    ensures WorkerWillEnd(s) <==> Left(s.worker)
  {
    if Left(s.worker) {
      forall steps | After(s, steps).Some? && Quiet(After(s, steps).value)
        ensures After(s, steps).value.worker == Exited
      {
        LeftForGood(s, steps);
        InvAfter(s, steps);
        QuietMeansDone(After(s, steps).value);
      }
    } else {
      var first := ShutdownsFirst(s);
      InvAfter(s, first);
      var steps := StopAndRest(After(s, first).value);
      AfterBoth(s, first, steps);
      assert !WorkerWillEnd(s);
    }
  }

  lemma StopAndRest(s: State) returns (steps: seq<Step>)
    requires Inv(s) && NoneShutting(s) && !Left(s.worker)
    ensures After(s, steps).Some? && Quiet(After(s, steps).value) && After(s, steps).value.worker == Blocked
  {
    InvAfter(s, [Stop]);
    var stopped := Apply(s, Stop);
    PassesThrough([s, stopped], [Stop]);
    var rest := ComesToRest(stopped);
    steps := [Stop] + rest;
    AfterBoth(s, [Stop], rest);
    WorkerStays(stopped, rest);
    InvAfter(stopped, rest);
    QuietMeansDone(After(stopped, rest).value);
  }

  /** A shutdown that has returned, a stop that came while the worker was asleep, and a worker that is never woken. */
  lemma WorkerSleepsAfterShutdown()
    ensures var steps := [WorkerCheck, Call(ShuttingDown), Shut(0), Stop, NotifyAll(0), WorkerCheck, FlushCheck(0)];
            && After(Initial, steps) == Some(State(Shared(Closing, [], 0), Blocked, [Flushed(true)], [], []))
            && Quiet(After(Initial, steps).value)
  {
    var steps := [WorkerCheck, Call(ShuttingDown), Shut(0), Stop, NotifyAll(0), WorkerCheck, FlushCheck(0)];
    var running, down, closing := Shared(Running, [], 0), Shared(Terminated, [], 0), Shared(Closing, [], 0);
    PassesThrough([Initial, State(running, Blocked, [], [], []), State(running, Blocked, [ShuttingDown], [], []),
                   State(down, Blocked, [ShutSignalling], [], []), State(closing, Blocked, [ShutSignalling], [], []),
                   State(closing, Top, [Flushing(true)], [], []), State(closing, Blocked, [Flushing(true)], [], []),
                   State(closing, Blocked, [Flushed(true)], [], [])], steps);
    NothingLeftToDo(State(closing, Blocked, [Flushed(true)], [], []));
  }

  lemma NothingLeftToDo(s: State)
    requires s.worker == Blocked && forall i | 0 <= i < |s.callers| :: s.callers[i].Flushed?
    ensures Quiet(s)
  {
  }

  /** No schedule lets the threads move by themselves for ever. */
  lemma {:induction false} NoEndlessSchedule(run: nat -> State, step: nat -> Step, k: nat)
    requires forall j: nat :: Enabled(run(j), step(j)) && !External(step(j)) && run(j + 1) == Apply(run(j), step(j))
    ensures false
    decreases WorkLeft(run(k)).entering, WorkLeft(run(k)).work, WorkLeft(run(k)).life, WorkLeft(run(k)).owing,
              WorkLeft(run(k)).looking, WorkLeft(run(k)).flushing
  {
    InternalStepLeavesLess(run(k), step(k));
    NoEndlessSchedule(run, step, k + 1);
  }
}
