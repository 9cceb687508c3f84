/** Task hand-off to the event loop, flute/net/Reactor.cc: any number of threads queue tasks and
    one thread polls, dispatches, then swaps out the queue and runs it. */
module Reactor {

  type Task = int
  type Thread = nat

  // Where the reactor thread is in loop(). Entering is before m_going_to_quit is cleared, Polling is
  // "about to block in poll".
  datatype Phase = Entering | Top | Polling | Dispatching | Swapping | Running | Stopped

  datatype State = State(
    phase: Phase,
    ready: bool,               // the wake-up channel is among the active channels, not handled yet
    pending: seq<Task>,
    batch: seq<Task>,          // what is left of the swapped-out tasks
    executed: seq<Task>,       // history
    queued: seq<Task>,         // history
    calling: bool,             // m_is_calling_pending_tasks
    quit: bool,
    counter: nat,              // the eventfd
    selfWaking: bool,          // the reactor thread is between its push and its eventfd write
    waking: set<Thread>)       // other threads between their push and their eventfd write

  datatype Step =
    // any other thread
    | Push(thread: Thread, task: Task)
    | Quit(thread: Thread)
    | Wake(thread: Thread)
    // the reactor thread
    | EnterLoop
    | LoopTest
    | PollReturns
    | HandleWakeup
    | SelfPush(task: Task)
    | SelfQuit
    | SelfWake
    | BeginTasks
    | Swap
    | RunTask
    | EndTasks

  predicate Enabled(s: State, step: Step) {
    match step
    case Push(t, _) => t !in s.waking
    case Quit(t) => t !in s.waking
    case Wake(t) => t in s.waking
    case EnterLoop => s.phase == Entering
    case LoopTest => s.phase == Top
    case PollReturns => s.phase == Polling
    case HandleWakeup => s.phase == Dispatching && s.ready
    case SelfPush(_) => (s.phase == Dispatching || s.phase == Running) && !s.selfWaking
    case SelfQuit => (s.phase == Dispatching || s.phase == Running) && !s.selfWaking
    case SelfWake => s.selfWaking
    case BeginTasks => s.phase == Dispatching && !s.ready
    case Swap => s.phase == Swapping
    case RunTask => s.phase == Running && s.batch != [] && !s.selfWaking
    case EndTasks => s.phase == Running && s.batch == [] && !s.selfWaking
  }

  function Do(s: State, step: Step): State
    requires Enabled(s, step)
  {
    match step
    case Push(t, x) => s.(pending := s.pending + [x], queued := s.queued + [x], waking := s.waking + {t})
    case Quit(t) => s.(quit := true, waking := s.waking + {t})
    case Wake(t) => s.(counter := s.counter + 1, waking := s.waking - {t})
    case EnterLoop => s.(phase := Top, quit := false)
    case LoopTest => s.(phase := if s.quit then Stopped else Polling)
    case PollReturns => s.(phase := Dispatching, ready := s.counter > 0)
    case HandleWakeup => s.(counter := 0, ready := false)
    case SelfPush(x) => s.(pending := s.pending + [x], queued := s.queued + [x], selfWaking := s.calling)
    case SelfQuit => s.(quit := true)
    case SelfWake => s.(counter := s.counter + 1, selfWaking := false)
    case BeginTasks => s.(phase := Swapping, calling := true)
    case Swap => s.(phase := Running, batch := s.pending, pending := [])
    case RunTask => s.(executed := s.executed + [s.batch[0]], batch := s.batch[1..])
    case EndTasks => s.(phase := Top, calling := false)
  }

  // loop() is entered with these tasks pending, this eventfd counter, these threads between their
  // push or mark_quit and their eventfd write, and perhaps a request to quit.
  function Start(pending: seq<Task>, counter: nat, waking: set<Thread>, quit: bool): State {
    State(Entering, false, pending, [], [], pending, false, quit, counter, false, waking)
  }

  ghost predicate IsRun(steps: seq<Step>, states: seq<State>) {
    && |states| == |steps| + 1
    && forall k :: 0 <= k < |steps| ==> Enabled(states[k], steps[k]) && states[k + 1] == Do(states[k], steps[k])
  }

  // A wake-up has been written or is about to be.
  predicate IsAnnounced(s: State) {
    s.counter > 0 || s.selfWaking || s.waking != {}
  }

  // Executed, in hand and pending tasks are the queued ones, in order.
  predicate IsConserved(s: State) {
    s.executed + s.batch + s.pending == s.queued
  }

  predicate Inv(s: State) {
    && IsConserved(s)
    && (s.batch != [] ==> s.phase == Running)
    && (s.calling <==> s.phase == Swapping || s.phase == Running)
    && (s.selfWaking ==> s.phase == Running)
    && (s.pending != [] && s.phase != Dispatching && s.phase != Swapping && s.phase != Stopped ==> IsAnnounced(s))
    && (s.quit && s.phase == Polling ==> IsAnnounced(s))
  }

  lemma DoConserves(s: State, step: Step)
    requires IsConserved(s) && (s.batch != [] ==> s.phase == Running) && Enabled(s, step)
    ensures IsConserved(Do(s, step)) && (Do(s, step).batch != [] ==> Do(s, step).phase == Running)
  {
    match step
    case Push(_, x) => assert s.executed + s.batch + (s.pending + [x]) == s.executed + s.batch + s.pending + [x];
    case SelfPush(x) => assert s.executed + s.batch + (s.pending + [x]) == s.executed + s.batch + s.pending + [x];
    case Swap => assert s.batch == [];
    case RunTask => assert s.batch == [s.batch[0]] + s.batch[1..];
    case _ =>
  }

  lemma DoKeepsInv(s: State, step: Step)
    requires Inv(s) && Enabled(s, step)
    ensures Inv(Do(s, step))
  {
    DoConserves(s, step);
    hide IsConserved;
  }

  lemma {:induction false} RunKeepsInv(steps: seq<Step>, states: seq<State>, k: nat)
    requires IsRun(steps, states) && Inv(states[0]) && k <= |steps|
    ensures Inv(states[k])
  {
    hide Do, Enabled, Inv;
    if k > 0 {
      RunKeepsInv(steps, states, k - 1);
      DoKeepsInv(states[k - 1], steps[k - 1]);
    }
  }

  // The tasks that steps of any thread queue, in order.
  function TasksOf(steps: seq<Step>): seq<Task> {
    if steps == [] then []
    else
      var last := steps[|steps| - 1];
      TasksOf(steps[..|steps| - 1]) + if last.Push? || last.SelfPush? then [last.task] else []
  }

  lemma StepQueues(s: State, step: Step)
    requires Enabled(s, step)
    ensures Do(s, step).queued == s.queued + if step.Push? || step.SelfPush? then [step.task] else []
  {
  }

  lemma {:induction false} QueuedIsTasksOf(steps: seq<Step>, states: seq<State>, k: nat)
    requires IsRun(steps, states) && k <= |steps|
    ensures states[k].queued == states[0].queued + TasksOf(steps[..k])
  {
    if k > 0 {
      QueuedIsTasksOf(steps, states, k - 1);
      StepQueues(states[k - 1], steps[k - 1]);
      hide Do, Enabled;
      assert steps[..k][..k - 1] == steps[..k - 1];
    }
  }

  lemma {:induction false} RunConserves(steps: seq<Step>, states: seq<State>, k: nat)
    requires IsRun(steps, states) && k <= |steps|
    requires IsConserved(states[0]) && states[0].batch == []
    ensures IsConserved(states[k]) && (states[k].batch != [] ==> states[k].phase == Running)
  {
    hide Do, Enabled, IsConserved;
    if k > 0 {
      RunConserves(steps, states, k - 1);
      DoConserves(states[k - 1], steps[k - 1]);
    }
  }

  /** For every interleaving, executed, in-hand and pending tasks are those pending at the start and
      then those the steps of all threads queued, in order. */
  lemma TasksAreConserved(steps: seq<Step>, states: seq<State>, k: nat,
                          pending: seq<Task>, counter: nat, waking: set<Thread>, quit: bool)
    requires IsRun(steps, states) && states[0] == Start(pending, counter, waking, quit) && k <= |steps|
    ensures states[k].executed + states[k].batch + states[k].pending == pending + TasksOf(steps[..k])
    ensures states[k].executed <= pending + TasksOf(steps[..k])
  {
    hide Do, Enabled, TasksOf;
    assert [] + [] + pending == pending;
    RunConserves(steps, states, k);
    QueuedIsTasksOf(steps, states, k);
    var s := states[k];
    assert s.executed + s.batch + s.pending == s.executed + (s.batch + s.pending);
  }

  // The loop is about to block with tasks pending and nothing under way to wake it.
  predicate SleepsOnWork(s: State) {
    s.phase == Polling && s.pending != [] && !IsAnnounced(s)
  }

  ghost predicate NeverSleepsOnWork(pending: seq<Task>, counter: nat, waking: set<Thread>, quit: bool) {
    forall steps, states, k ::
      IsRun(steps, states) && states[0] == Start(pending, counter, waking, quit) && 0 <= k <= |steps| ==>
        !SleepsOnWork(states[k])
  }

  // Nothing is pending at the start, or a wake-up has been written or is about to be.
  predicate IsSafeStart(pending: seq<Task>, counter: nat, waking: set<Thread>) {
    pending == [] || counter > 0 || waking != {}
  }

  /** No wake-up is lost, in any run, exactly when loop() is not entered with work pending, the
      eventfd silent and no producer about to write it; a task queued on the reactor thread before
      loop() leaves it so. */
  lemma NoLostWakeup(pending: seq<Task>, counter: nat, waking: set<Thread>, quit: bool)
    ensures NeverSleepsOnWork(pending, counter, waking, quit) <==> IsSafeStart(pending, counter, waking)
  {
    var s := Start(pending, counter, waking, quit);
    if IsSafeStart(pending, counter, waking) {
      assert IsConserved(s);
      forall steps, states, k | IsRun(steps, states) && states[0] == s && 0 <= k <= |steps|
        ensures !SleepsOnWork(states[k])
      {
        RunKeepsInv(steps, states, k);
      }
    } else {
      var s1 := Do(s, EnterLoop);
      var steps, states := [EnterLoop, LoopTest], [s, s1, Do(s1, LoopTest)];
      assert IsRun(steps, states) && states[0] == s && SleepsOnWork(states[2]);
    }
  }

  /** When the loop really sleeps (nobody has announced anything) every task ever queued has been
      executed, and nobody has asked it to quit. */
  lemma SleepMeansDone(steps: seq<Step>, states: seq<State>, k: nat,
                       pending: seq<Task>, counter: nat, waking: set<Thread>, quit: bool)
    requires IsRun(steps, states) && states[0] == Start(pending, counter, waking, quit) && k <= |steps|
    requires IsSafeStart(pending, counter, waking)
    requires states[k].phase == Polling && !IsAnnounced(states[k])
    ensures states[k].executed == pending + TasksOf(steps[..k]) && !states[k].quit
  {
    QueuedIsTasksOf(steps, states, k);
    RunKeepsInv(steps, states, k);
    hide IsRun, Do, Enabled;
  }

  // ---------- Quitting ----------

  predicate IsQuit(step: Step) {
    step.Quit? || step.SelfQuit?
  }

  // A step from e on, and before k, asks to quit.
  ghost predicate IsAskedToQuit(steps: seq<Step>, e: nat, k: nat)
    requires k <= |steps|
  {
    exists j :: e <= j < k && IsQuit(steps[j])
  }

  lemma QuitStep(s: State, step: Step)
    requires Enabled(s, step) && s.phase != Entering
    ensures Do(s, step).phase != Entering
    ensures Do(s, step).quit <==> s.quit || IsQuit(step)
  {
  }

  lemma EnterStep(s: State, step: Step)
    requires Enabled(s, step) && step.EnterLoop?
    ensures Do(s, step).phase != Entering && !Do(s, step).quit
  {
  }

  lemma {:induction false} QuitIsKept(steps: seq<Step>, states: seq<State>, e: nat, k: nat)
    requires IsRun(steps, states) && e < k <= |steps| && steps[e].EnterLoop?
    ensures states[k].phase != Entering
    ensures states[k].quit <==> IsAskedToQuit(steps, e + 1, k)
    decreases k
  {
    hide Do, Enabled, IsQuit;
    if e + 1 == k {
      EnterStep(states[e], steps[e]);
    } else {
      QuitIsKept(steps, states, e, k - 1);
      QuitStep(states[k - 1], steps[k - 1]);
      if IsAskedToQuit(steps, e + 1, k) && !IsQuit(steps[k - 1]) {
        var j :| e + 1 <= j < k && IsQuit(steps[j]);
        assert j < k - 1;
      }
    }
  }

  /** A turn of the loop is its last if and only if a request to quit was made after loop() cleared
      the flag; one made before is forgotten. */
  lemma QuitStopsLoop(steps: seq<Step>, states: seq<State>, e: nat, k: nat)
    requires IsRun(steps, states) && e < k < |steps| && steps[e].EnterLoop? && steps[k].LoopTest?
    ensures states[k + 1].phase == Stopped <==> IsAskedToQuit(steps, e + 1, k)
  {
    QuitIsKept(steps, states, e, k);
  }

  // ---------- The code ----------

  class EventLoop {
    var phase: Phase
    var ready: bool
    var pending: seq<Task>
    var batch: seq<Task>
    var executed: seq<Task>
    var calling: bool
    var quit: bool
    var counter: nat
    ghost var queued: seq<Task>
    ghost var selfWaking: bool
    var waking: set<Thread>
    ghost var steps: seq<Step>
    ghost var states: seq<State>

    ghost function Abs(): State
      reads this
    {
      State(phase, ready, pending, batch, executed, queued, calling, quit, counter, selfWaking, waking)
    }

    // The object's history is a run that ends in its present state.
    ghost predicate Valid()
      reads this
    {
      IsRun(steps, states) && |states| == |steps| + 1 && states[|steps|] == Abs() && Inv(Abs())
    }

    ghost method Record(step: Step)
      requires IsRun(steps, states) && |states| == |steps| + 1 && Inv(states[|steps|])
      requires Enabled(states[|steps|], step) && Abs() == Do(states[|steps|], step)
      modifies this`steps, this`states
      ensures Valid() && steps == old(steps) + [step] && states == old(states) + [Abs()]
    {
      hide Inv, Do, Enabled;
      DoKeepsInv(states[|steps|], step);
      steps, states := steps + [step], states + [Abs()];
    }

    constructor ()
      ensures Valid() && states == [Start([], 0, {}, false)]
    {
      phase, ready, pending, batch, executed, calling, quit, counter := Entering, false, [], [], [], false, false, 0;
      queued, selfWaking, waking := [], false, {};
      steps, states := [], [Start([], 0, {}, false)];
    }

    // loop() up to its test.
    method BeginLoop()
      requires Valid() && phase == Entering
      modifies this
      ensures Valid() && steps == old(steps) + [EnterLoop] && phase == Top && !quit
    {
      phase, quit := Top, false;
      Record(EnterLoop);
    }

    // The locked section of queue_in_reactor, on the reactor thread.
    method PushPending(task: Task)
      requires Valid() && Enabled(Abs(), SelfPush(task))
      modifies this
      ensures Valid() && steps == old(steps) + [SelfPush(task)]
      ensures pending == old(pending) + [task] && selfWaking == calling
      ensures unchanged(`phase) && unchanged(`batch) && unchanged(`executed) && unchanged(`calling) && unchanged(`quit)
    {
      hide IsRun, IsConserved;
      pending := pending + [task];
      queued, selfWaking := queued + [task], calling;
      Record(SelfPush(task));
    }

    // wakeup_from_waiting_pool, on the reactor thread.
    method WakeupFromWaitingPool()
      requires Valid() && selfWaking
      modifies this
      ensures Valid() && steps == old(steps) + [SelfWake] && counter == old(counter) + 1 && !selfWaking
      ensures unchanged(`phase) && unchanged(`batch) && unchanged(`executed) && unchanged(`calling) && unchanged(`quit)
      ensures unchanged(`pending)
    {
      hide IsRun, IsConserved;
      counter, selfWaking := counter + 1, false;
      Record(SelfWake);
    }

    // queue_in_reactor on the reactor thread.
    method QueueInReactor(task: Task)
      requires Valid() && Enabled(Abs(), SelfPush(task))
      modifies this
      ensures Valid()
      ensures steps == old(steps) + [SelfPush(task)] + (if old(calling) then [SelfWake] else [])
      ensures pending == old(pending) + [task] && !selfWaking
      ensures unchanged(`phase) && unchanged(`batch) && unchanged(`executed) && unchanged(`calling) && unchanged(`quit)
    {
      PushPending(task);
      hide Valid;
      if calling {
        WakeupFromWaitingPool();
      }
    }

    method HandleWakeup()
      requires Valid() && Enabled(Abs(), Step.HandleWakeup)
      modifies this
      ensures Valid() && steps == old(steps) + [Step.HandleWakeup] && counter == 0
    {
      counter, ready := 0, false;
      Record(Step.HandleWakeup);
    }

    // One step of another thread; one it cannot take is not taken.
    method InterfereFromOutside(step: Step)
      requires Valid() && IsOutside(step)
      modifies this
      ensures Valid() && old(steps) <= steps && old(pending) <= pending
      ensures steps == if old(Enabled(Abs(), step)) then old(steps) + [step] else old(steps)
      ensures pending == if step.Push? && old(step.thread !in waking) then old(pending) + [step.task] else old(pending)
      ensures unchanged(`phase) && unchanged(`ready) && unchanged(`batch) && unchanged(`executed)
      ensures unchanged(`calling) && unchanged(`selfWaking)
    {
      hide IsRun, IsConserved;
      match step {
        case Push(t, x) =>
          if t in waking { return; }
          pending, queued, waking := pending + [x], queued + [x], waking + {t};
          Record(step);
        case Quit(t) =>
          if t in waking { return; }
          quit, waking := true, waking + {t};
          Record(step);
        case Wake(t) =>
          if t !in waking { return; }
          counter, waking := counter + 1, waking - {t};
          Record(step);
      }
    }

    // One step of another thread, or one the task being run makes.
    method Interfere(step: Step)
      requires Valid() && IsInterference(step) && phase == Running && !selfWaking
      modifies this
      ensures Valid() && old(steps) <= steps
      ensures unchanged(`phase) && unchanged(`batch) && unchanged(`executed) && unchanged(`calling) && !selfWaking
    {
      if IsOutside(step) {
        hide Valid;
        InterfereFromOutside(step);
      } else if step.SelfPush? {
        QueueInReactor(step.task);
      } else {
        hide IsRun, IsConserved;
        quit := true;
        Record(step);
      }
    }

    method BeginCallingTasks()
      requires Valid() && Enabled(Abs(), BeginTasks)
      modifies this
      ensures Valid() && steps == old(steps) + [BeginTasks] && phase == Swapping
      ensures unchanged(`pending) && unchanged(`executed)
    {
      calling, phase := true, Swapping;
      Record(BeginTasks);
    }

    // The locked section that swaps m_pending_tasks for an empty vector.
    method SwapOutTasks() returns (tasks: seq<Task>)
      requires Valid() && phase == Swapping
      modifies this
      ensures Valid() && steps == old(steps) + [Swap] && phase == Running && calling && !selfWaking
      ensures tasks == batch == old(pending) && unchanged(`executed)
    {
      tasks, pending := pending, [];
      batch, phase := tasks, Running;
      Record(Swap);
    }

    // One task runs, while the given events happen.
    method RunOneTask(events: seq<Step>)
      requires Valid() && phase == Running && calling && !selfWaking && batch != []
      requires forall j :: 0 <= j < |events| ==> IsInterference(events[j])
      modifies this
      ensures Valid() && old(steps) <= steps && phase == Running && calling && !selfWaking
      ensures executed == old(executed) + [old(batch)[0]] && batch == old(batch)[1..]
    {
      hide IsRun, IsConserved;
      executed, batch := executed + [batch[0]], batch[1..];
      Record(RunTask);
      hide Inv;
      for j := 0 to |events|
        invariant Valid() && old(steps) <= steps && phase == Running && calling && !selfWaking
        invariant executed == old(executed) + [old(batch)[0]] && batch == old(batch)[1..]
      {
        Interfere(events[j]);
      }
    }

    // Other threads go on until the swap.
    method WaitForSwap(events: seq<Step>)
      requires Valid() && phase == Swapping && forall j :: 0 <= j < |events| ==> IsOutside(events[j])
      modifies this
      ensures Valid() && phase == Swapping && old(steps) <= steps && old(pending) <= pending && unchanged(`executed)
    {
      hide Valid;
      for j := 0 to |events|
        invariant Valid() && phase == Swapping && old(steps) <= steps && old(pending) <= pending && unchanged(`executed)
      {
        InterfereFromOutside(events[j]);
      }
    }

    // do_queueing_tasks; before is what other threads do until the swap, during[i] is what happens
    // while the i-th task runs.
    method DoQueueingTasks(before: seq<Step>, during: seq<seq<Step>>) returns (tasks: seq<Task>)
      requires Valid() && Enabled(Abs(), BeginTasks)
      requires forall j :: 0 <= j < |before| ==> IsOutside(before[j])
      requires forall i :: 0 <= i < |during| ==> forall j :: 0 <= j < |during[i]| ==> IsInterference(during[i][j])
      modifies this
      ensures Valid() && old(steps) <= steps && phase == Top && !calling
      ensures executed == old(executed) + tasks && old(pending) <= tasks
    {
      BeginCallingTasks();
      hide Valid;
      WaitForSwap(before);
      tasks := SwapOutTasks();
      RunTasks(tasks, during);
      FinishTasks();
    }

    method RunTasks(tasks: seq<Task>, during: seq<seq<Step>>)
      requires Valid() && phase == Running && calling && !selfWaking && batch == tasks
      requires forall i :: 0 <= i < |during| ==> forall j :: 0 <= j < |during[i]| ==> IsInterference(during[i][j])
      modifies this
      ensures Valid() && old(steps) <= steps && Enabled(Abs(), EndTasks)
      ensures executed == old(executed) + tasks
    {
      hide Valid;
      for i := 0 to |tasks|
        invariant Valid() && old(steps) <= steps && phase == Running && calling && !selfWaking
        invariant batch == tasks[i..] && executed == old(executed) + tasks[..i]
      {
        RunOneTask(if i < |during| then during[i] else []);
      }
    }

    method FinishTasks()
      requires Valid() && Enabled(Abs(), EndTasks)
      modifies this
      ensures Valid() && steps == old(steps) + [EndTasks] && phase == Top && !calling && unchanged(`executed)
    {
      calling, phase := false, Top;
      Record(EndTasks);
    }
  }

  // What other threads may do at any time.
  predicate IsOutside(step: Step) {
    step.Push? || step.Quit? || step.Wake?
  }

  // What may happen while the reactor thread runs a task.
  predicate IsInterference(step: Step) {
    IsOutside(step) || step.SelfPush? || step.SelfQuit?
  }
}
