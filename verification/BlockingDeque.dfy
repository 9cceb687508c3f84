/** The bounded blocking deque, flute/common/BoundedBlockingDeque.h: a monitor with two condition
    variables, single notifies and wake-ups that must test their condition again. Each step is what
    one thread does from taking the mutex until it waits or returns. */
module BlockingDeque {
  import opened Options

  type Thread = nat
  type Value = int

  datatype Element = Element(id: nat, value: Value)

  // What a producer has come to push, and at which end.
  datatype Item = Item(value: Value, back: bool)

  // The threads that wait on one condition variable: asleep, or signalled and on their way to the mutex.
  datatype Waiters = Waiters(asleep: set<Thread>, woken: set<Thread>) {

    predicate IsDisjoint() {
      asleep !! woken
    }

    function Sleep(t: Thread): Waiters {
      Waiters(asleep + {t}, woken)
    }

    function Leave(t: Thread): Waiters {
      Waiters(asleep, woken - {t})
    }

    // pthread_cond_signal wakes one of the threads asleep, if there is one.
    predicate CanSignal(wake: Option<Thread>) {
      if asleep == {} then wake.None? else wake.Some? && wake.value in asleep
    }

    function Signal(wake: Option<Thread>): Waiters {
      if wake.None? then this else Waiters(asleep - {wake.value}, woken + {wake.value})
    }

    // If a thread is asleep, then at least n threads are on their way.
    predicate Suffice(n: int) {
      asleep != {} ==> n <= |woken|
    }
  }

  datatype State = State(
    capacity: nat,
    queue: seq<Element>,
    lastId: nat,
    takers: Waiters,               // m_cond_not_empty
    pushers: Waiters,              // m_cond_not_full
    items: map<Thread, Item>,      // what the threads in pushers have come to push
    // history
    pushed: seq<Element>,
    taken: seq<Element>,
    onlyBack: bool)

  // `wake` is the thread that a notify in this step wakes.
  datatype Step =
    | Push(thread: Thread, item: Item, wake: Option<Thread>)
    | RetryPush(thread: Thread, wake: Option<Thread>)
    | Take(thread: Thread, wake: Option<Thread>)
    | RetryTake(thread: Thread, wake: Option<Thread>)
    | SpuriousTaker(thread: Thread)
    | SpuriousPusher(thread: Thread)

  // ---------- The code ----------

  predicate IsWaiting(s: State, t: Thread) {
    t in s.takers.asleep || t in s.takers.woken || t in s.pushers.asleep || t in s.pushers.woken
  }

  function Insert(s: State, item: Item): State {
    var e := Element(s.lastId + 1, item.value);
    s.(lastId := s.lastId + 1,
       queue := if item.back then s.queue + [e] else [e] + s.queue,
       pushed := s.pushed + [e], onlyBack := s.onlyBack && item.back)
  }

  function Remove(s: State): State
    requires s.queue != []
  {
    s.(queue := s.queue[1..], taken := s.taken + [s.queue[0]])
  }

  function PushSection(s: State, t: Thread, item: Item, wake: Option<Thread>): State {
    if |s.queue| == s.capacity then s.(pushers := s.pushers.Sleep(t), items := s.items[t := item])
    else Insert(s, item).(takers := s.takers.Signal(wake))
  }

  function TakeSection(s: State, t: Thread, wake: Option<Thread>): State {
    if s.queue == [] then s.(takers := s.takers.Sleep(t))
    else Remove(s).(pushers := s.pushers.Signal(wake))
  }

  predicate Enabled(s: State, step: Step) {
    match step
    case Push(t, _, wake) => !IsWaiting(s, t) && s.takers.CanSignal(wake)
    case RetryPush(t, wake) => t in s.pushers.woken && t in s.items && s.takers.CanSignal(wake)
    case Take(t, wake) => !IsWaiting(s, t) && s.pushers.CanSignal(wake)
    case RetryTake(t, wake) => t in s.takers.woken && s.pushers.CanSignal(wake)
    case SpuriousTaker(t) => t in s.takers.asleep
    case SpuriousPusher(t) => t in s.pushers.asleep
  }

  function Do(s: State, step: Step): State
    requires Enabled(s, step)
  {
    match step
    case Push(t, item, wake) => PushSection(s, t, item, wake)
    case RetryPush(t, wake) => PushSection(s.(pushers := s.pushers.Leave(t)), t, s.items[t], wake)
    case Take(t, wake) => TakeSection(s, t, wake)
    case RetryTake(t, wake) => TakeSection(s.(takers := s.takers.Leave(t)), t, wake)
    case SpuriousTaker(t) => s.(takers := s.takers.Signal(Some(t)))
    case SpuriousPusher(t) => s.(pushers := s.pushers.Signal(Some(t)))
  }

  function Start(capacity: nat): State {
    State(capacity, [], 0, Waiters({}, {}), Waiters({}, {}), map[], [], [], true)
  }

  ghost predicate IsRun(capacity: nat, steps: seq<Step>, states: seq<State>) {
    && |states| == |steps| + 1 && states[0] == Start(capacity)
    && forall k :: 0 <= k < |steps| ==> Enabled(states[k], steps[k]) && states[k + 1] == Do(states[k], steps[k])
  }

  // ---------- No lost wake-up ----------

  predicate WakeupsSuffice(s: State) {
    && |s.queue| <= s.capacity
    && s.takers.IsDisjoint() && s.pushers.IsDisjoint()
    && s.takers.Suffice(|s.queue|)
    && s.pushers.Suffice(s.capacity - |s.queue|)
  }

  // A waiting producer still has its item in hand: RetryPush is enabled for every woken one.
  predicate ItemsAreKept(s: State) {
    s.pushers.asleep + s.pushers.woken <= s.items.Keys
  }

  lemma SignalCounts(w: Waiters, wake: Option<Thread>, n: int)
    requires w.IsDisjoint() && w.CanSignal(wake) && w.Suffice(n)
    ensures w.Signal(wake).IsDisjoint() && w.Signal(wake).Suffice(n + 1)
  {
    if wake.Some? {
      assert |w.woken + {wake.value}| == |w.woken| + 1;
    }
  }

  lemma SpuriousCounts(w: Waiters, t: Thread, n: int)
    requires w.IsDisjoint() && t in w.asleep && w.Suffice(n)
    ensures w.Signal(Some(t)).IsDisjoint() && w.Signal(Some(t)).Suffice(n)
  {
    assert |w.woken + {t}| == |w.woken| + 1;
  }

  lemma LeaveCounts(w: Waiters, t: Thread, n: int)
    requires w.IsDisjoint() && t in w.woken && w.Suffice(n)
    ensures w.Leave(t).IsDisjoint() && w.Leave(t).Suffice(n - 1) && t !in w.Leave(t).asleep && t !in w.Leave(t).woken
  {
    assert |w.woken - {t}| == |w.woken| - 1;
  }

  // A push on behalf of a thread that is in no waiting set; `came` is 1 if a notify brought it here.
  lemma PushSectionKeeps(s: State, t: Thread, item: Item, wake: Option<Thread>, came: nat)
    requires |s.queue| <= s.capacity && came <= 1
    requires s.takers.IsDisjoint() && s.takers.CanSignal(wake) && s.takers.Suffice(|s.queue|)
    requires s.pushers.IsDisjoint() && t !in s.pushers.woken
    requires s.pushers.Suffice(s.capacity - |s.queue| - came)
    ensures WakeupsSuffice(PushSection(s, t, item, wake))
  {
    SignalCounts(s.takers, wake, |s.queue|);
  }

  lemma TakeSectionKeeps(s: State, t: Thread, wake: Option<Thread>, came: nat)
    requires |s.queue| <= s.capacity && came <= 1
    requires s.takers.IsDisjoint() && t !in s.takers.woken && s.takers.Suffice(|s.queue| - came)
    requires s.pushers.IsDisjoint() && s.pushers.CanSignal(wake)
    requires s.pushers.Suffice(s.capacity - |s.queue|)
    ensures WakeupsSuffice(TakeSection(s, t, wake))
  {
    SignalCounts(s.pushers, wake, s.capacity - |s.queue|);
  }

  lemma DoKeepsWakeups(s: State, step: Step)
    requires WakeupsSuffice(s) && Enabled(s, step)
    ensures WakeupsSuffice(Do(s, step))
  {
    hide PushSection, TakeSection;
    match step
    case Push(t, item, wake) => PushSectionKeeps(s, t, item, wake, 0);
    case RetryPush(t, wake) =>
      LeaveCounts(s.pushers, t, s.capacity - |s.queue|);
      PushSectionKeeps(s.(pushers := s.pushers.Leave(t)), t, s.items[t], wake, 1);
    case Take(t, wake) => TakeSectionKeeps(s, t, wake, 0);
    case RetryTake(t, wake) =>
      LeaveCounts(s.takers, t, |s.queue|);
      TakeSectionKeeps(s.(takers := s.takers.Leave(t)), t, wake, 1);
    case SpuriousTaker(t) => SpuriousCounts(s.takers, t, |s.queue|);
    case SpuriousPusher(t) => SpuriousCounts(s.pushers, t, s.capacity - |s.queue|);
  }

  // ---------- Conservation and order ----------

  predicate ElementsAgree(s: State) {
    && s.lastId == |s.pushed|
    && (forall i :: 0 <= i < |s.pushed| ==> s.pushed[i].id == i + 1)
    && (s.onlyBack ==> s.taken + s.queue == s.pushed)
    && multiset(s.pushed) == multiset(s.taken) + multiset(s.queue)
  }

  lemma InsertKeeps(s: State, item: Item)
    requires ElementsAgree(s)
    ensures ElementsAgree(Insert(s, item))
  {
    var e, s' := Element(s.lastId + 1, item.value), Insert(s, item);
    assert s.taken + (s.queue + [e]) == (s.taken + s.queue) + [e];
    assert multiset(s'.pushed) == multiset(s.pushed) + multiset{e};
    assert multiset(s'.queue) == multiset(s.queue) + multiset{e};
  }

  lemma RemoveKeeps(s: State)
    requires ElementsAgree(s) && s.queue != []
    ensures ElementsAgree(Remove(s))
  {
    assert s.queue == [s.queue[0]] + s.queue[1..];
    assert s.taken + [s.queue[0]] + s.queue[1..] == s.taken + s.queue;
  }

  lemma DoKeepsElements(s: State, step: Step)
    requires ElementsAgree(s) && Enabled(s, step)
    ensures ElementsAgree(Do(s, step))
  {
    hide Insert, Remove;
    match step
    case Push(t, item, wake) => InsertKeeps(s, item);
    case RetryPush(t, wake) => InsertKeeps(s.(pushers := s.pushers.Leave(t)), s.items[t]);
    case Take(t, wake) => if s.queue != [] { RemoveKeeps(s); }
    case RetryTake(t, wake) => if s.queue != [] { RemoveKeeps(s.(takers := s.takers.Leave(t))); }
    case SpuriousTaker(t) =>
    case SpuriousPusher(t) =>
  }

  lemma DoKeepsItems(s: State, step: Step)
    requires ItemsAreKept(s) && Enabled(s, step)
    ensures ItemsAreKept(Do(s, step))
  {
  }

  // ---------- Every run ----------

  predicate Inv(s: State) {
    WakeupsSuffice(s) && ItemsAreKept(s) && ElementsAgree(s)
  }

  lemma {:induction false} RunKeepsInv(capacity: nat, steps: seq<Step>, states: seq<State>, k: nat)
    requires IsRun(capacity, steps, states) && k < |states|
    ensures Inv(states[k]) && states[k].capacity == capacity
  {
    hide WakeupsSuffice, ItemsAreKept, ElementsAgree;
    if k == 0 {
      StartIsSound(capacity);
    } else {
      RunKeepsInv(capacity, steps, states, k - 1);
      DoKeepsWakeups(states[k - 1], steps[k - 1]);
      DoKeepsElements(states[k - 1], steps[k - 1]);
      DoKeepsItems(states[k - 1], steps[k - 1]);
    }
  }

  lemma StartIsSound(capacity: nat)
    ensures Inv(Start(capacity))
  {
  }

  // Producers and consumers are stuck on each other: both sleep and nobody is on the way to the mutex.
  predicate IsDeadlocked(s: State) {
    s.takers.asleep != {} && s.pushers.asleep != {} && s.takers.woken == {} && s.pushers.woken == {}
  }

  ghost predicate NeverDeadlocks(capacity: nat) {
    forall steps, states, k: nat ::
      IsRun(capacity, steps, states) && k < |states| ==> !IsDeadlocked(states[k])
  }

  // A deque of capacity zero, which the constructor lets through, is the one that deadlocks.
  lemma DeadlockFreedom(capacity: nat)
    ensures NeverDeadlocks(capacity) <==> capacity > 0
  {
    if capacity > 0 {
      forall steps, states, k: nat | IsRun(capacity, steps, states) && k < |states|
        ensures !IsDeadlocked(states[k])
      {
        RunKeepsInv(capacity, steps, states, k);
      }
    } else {
      var steps := [Push(0, Item(0, true), None), Take(1, Some(0))];
      var s1 := Do(Start(0), steps[0]);
      assert s1.pushers.asleep == {0};
      assert !IsWaiting(s1, 1);
      var states := [Start(0), s1, Do(s1, steps[1])];
      assert IsRun(0, steps, states);
      assert IsDeadlocked(states[2]);
    }
  }

  // A consumer left asleep with nobody on the way has nothing to take, and dually for a producer.
  lemma SleepIsJustified(capacity: nat, steps: seq<Step>, states: seq<State>, k: nat)
    requires IsRun(capacity, steps, states) && k < |states|
    ensures states[k].takers.asleep != {} && states[k].takers.woken == {} ==> states[k].queue == []
    ensures states[k].pushers.asleep != {} && states[k].pushers.woken == {} ==> |states[k].queue| == capacity
  {
    RunKeepsInv(capacity, steps, states, k);
  }

  // What was pushed is what was taken and what is queued; pushed at the back only, it leaves in that order.
  lemma DeliveryInOrder(capacity: nat, steps: seq<Step>, states: seq<State>, k: nat)
    requires IsRun(capacity, steps, states) && k < |states|
    ensures multiset(states[k].pushed) == multiset(states[k].taken) + multiset(states[k].queue)
    ensures states[k].onlyBack ==> states[k].taken + states[k].queue == states[k].pushed
    ensures states[k].onlyBack ==> forall i :: 0 <= i < |states[k].taken| ==> states[k].taken[i].id == i + 1
  {
    RunKeepsInv(capacity, steps, states, k);
    var s := states[k];
    if s.onlyBack {
      forall i | 0 <= i < |s.taken| ensures s.taken[i].id == i + 1 {
        assert s.taken[i] == (s.taken + s.queue)[i];
      }
    }
  }

  // What is pushed at the front is what is taken next, and taking it leaves the queue as it was.
  lemma TakeUndoesPushFront(s: State, t: Thread, u: Thread, x: Value, wakeTaker: Option<Thread>, wakePusher: Option<Thread>)
    requires |s.queue| < s.capacity
    ensures var s1 := PushSection(s, t, Item(x, false), wakeTaker);
            var s2 := TakeSection(s1, u, wakePusher);
            && s2.queue == s.queue && s2.taken == s.taken + [Element(s.lastId + 1, x)]
            && s1.takers == s.takers.Signal(wakeTaker) && s2.pushers == s.pushers.Signal(wakePusher)
  {
    var e := Element(s.lastId + 1, x);
    assert ([e] + s.queue)[1..] == s.queue;
  }

  // Whichever end is pushed at, no id is delivered twice.
  lemma DeliveredOnce(capacity: nat, steps: seq<Step>, states: seq<State>, k: nat, i: nat, j: nat)
    requires IsRun(capacity, steps, states) && k < |states| && i < j < |states[k].taken|
    ensures states[k].taken[i].id != states[k].taken[j].id
  {
    RunKeepsInv(capacity, steps, states, k);
    var s := states[k];
    var x, y := s.taken[i], s.taken[j];
    assert x in multiset(s.taken) && y in multiset(s.taken);
    assert x in multiset(s.pushed) && y in multiset(s.pushed);
    assert x in s.pushed && y in s.pushed;
    if x == y {
      CountTwice(s.taken, i, j);
      CountOnce(s.pushed, x);
    }
  }

  lemma CountTwice(s: seq<Element>, i: nat, j: nat)
    requires i < j < |s| && s[i] == s[j]
    ensures multiset(s)[s[i]] >= 2
  {
    assert s == s[..j] + s[j..];
    assert s[i] in s[..j] && s[i] in s[j..] by {
      assert s[..j][i] == s[i] && s[j..][0] == s[i];
    }
  }

  lemma {:induction false} CountOnce(s: seq<Element>, x: Element)
    requires forall i :: 0 <= i < |s| ==> s[i].id == i + 1
    ensures multiset(s)[x] <= 1
    decreases |s|
  {
    if s != [] {
      var n := |s| - 1;
      CountOnce(s[..n], x);
      assert s == s[..n] + [s[n]];
      if x == s[n] {
        assert forall i :: 0 <= i < n ==> s[..n][i].id == i + 1;
        assert x !in s[..n];
      }
    }
  }

  // ---------- What each step stores and takes ----------

  // What a thread last came to push.
  function LastItem(steps: seq<Step>, t: Thread): Option<Item> {
    if steps == [] then None
    else
      var last := steps[|steps| - 1];
      if last.Push? && last.thread == t then Some(last.item) else LastItem(steps[..|steps| - 1], t)
  }

  // A waiting producer waits with the item it came with.
  ghost predicate ItemsAreTheirs(s: State, steps: seq<Step>) {
    forall t :: t in s.pushers.asleep || t in s.pushers.woken ==> t in s.items && LastItem(steps, t) == Some(s.items[t])
  }

  lemma LastItemStep(steps: seq<Step>, step: Step, t: Thread)
    ensures LastItem(steps + [step], t) ==
              if step.Push? && step.thread == t then Some(step.item) else LastItem(steps, t)
  {
    var all := steps + [step];
    assert all[|all| - 1] == step && all[..|all| - 1] == steps;
  }

  lemma ItemsStayAt(s: State, step: Step, steps: seq<Step>, t: Thread)
    requires Enabled(s, step) && ItemsAreTheirs(s, steps)
    requires t in Do(s, step).pushers.asleep || t in Do(s, step).pushers.woken
    ensures t in Do(s, step).items && LastItem(steps + [step], t) == Some(Do(s, step).items[t])
  {
    LastItemStep(steps, step, t);
    hide LastItem;
  }

  lemma {:induction false} RunKeepsItems(capacity: nat, steps: seq<Step>, states: seq<State>, k: nat)
    requires IsRun(capacity, steps, states) && k < |states|
    ensures ItemsAreTheirs(states[k], steps[..k])
  {
    if k > 0 {
      RunKeepsItems(capacity, steps, states, k - 1);
      var s, step := states[k - 1], steps[k - 1];
      assert steps[..k - 1] + [step] == steps[..k];
      hide Do, Enabled, LastItem;
      forall t | t in states[k].pushers.asleep || t in states[k].pushers.woken
        ensures t in states[k].items && LastItem(steps[..k], t) == Some(states[k].items[t])
      {
        ItemsStayAt(s, step, steps[..k - 1], t);
      }
    }
  }

  /** A push stores the item its thread came with, numbered one higher than the last, at the end it
      came to push at, and wakes a consumer; unless the deque is full, when the thread goes to sleep
      and nothing else changes. */
  lemma PushStores(capacity: nat, steps: seq<Step>, states: seq<State>, k: nat)
    requires IsRun(capacity, steps, states) && k < |steps| && (steps[k].Push? || steps[k].RetryPush?)
    ensures LastItem(steps[..k + 1], steps[k].thread).Some?
    ensures var s, s', item := states[k], states[k + 1], LastItem(steps[..k + 1], steps[k].thread).value;
            var e := Element(|s.pushed| + 1, item.value);
            if |s.queue| == capacity
            then && steps[k].thread in s'.pushers.asleep
                 && s'.queue == s.queue && s'.pushed == s.pushed && s'.taken == s.taken && s'.takers == s.takers
            else && s'.queue == (if item.back then s.queue + [e] else [e] + s.queue)
                 && s'.pushed == s.pushed + [e] && s'.taken == s.taken && s'.takers == s.takers.Signal(steps[k].wake)
  {
    RunKeepsInv(capacity, steps, states, k);
    RunKeepsItems(capacity, steps, states, k);
    LastItemStep(steps[..k], steps[k], steps[k].thread);
    assert steps[..k] + [steps[k]] == steps[..k + 1];
    assert Enabled(states[k], steps[k]) && states[k + 1] == Do(states[k], steps[k]);
    assert states[k].lastId == |states[k].pushed|;
    hide IsRun, LastItem, Inv, Do;
    PushStep(states[k], steps[k], LastItem(steps[..k + 1], steps[k].thread).value);
  }

  lemma PushStep(s: State, step: Step, item: Item)
    requires Enabled(s, step) && (step.Push? || step.RetryPush?) && s.lastId == |s.pushed|
    requires item == if step.Push? then step.item else s.items[step.thread]
    ensures var s', e := Do(s, step), Element(|s.pushed| + 1, item.value);
            if |s.queue| == s.capacity
            then && step.thread in s'.pushers.asleep
                 && s'.queue == s.queue && s'.pushed == s.pushed && s'.taken == s.taken && s'.takers == s.takers
            else && s'.queue == (if item.back then s.queue + [e] else [e] + s.queue)
                 && s'.pushed == s.pushed + [e] && s'.taken == s.taken && s'.takers == s.takers.Signal(step.wake)
  {
  }

  /** A take removes the front and wakes a producer; unless the deque is empty, when the thread goes to
      sleep and nothing else changes. Spurious wake-ups touch no element. */
  lemma TakeTakes(capacity: nat, steps: seq<Step>, states: seq<State>, k: nat)
    requires IsRun(capacity, steps, states) && k < |steps| && !steps[k].Push? && !steps[k].RetryPush?
    ensures var s, s' := states[k], states[k + 1];
            if (steps[k].Take? || steps[k].RetryTake?) && s.queue != []
            then && s'.taken == s.taken + [s.queue[0]] && s'.queue == s.queue[1..] && s'.pushed == s.pushed
                 && s'.pushers == s.pushers.Signal(steps[k].wake)
            else && s'.taken == s.taken && s'.queue == s.queue && s'.pushed == s.pushed
                 && (steps[k].Take? || steps[k].RetryTake? ==> steps[k].thread in s'.takers.asleep)
  {
  }

  // ---------- The object ----------

  class Deque {
    const capacity: nat
    var queue: seq<Element>
    var lastId: nat

    constructor (capacity: nat)
      ensures this.capacity == capacity && queue == [] && lastId == 0
    {
      this.capacity := capacity;
      queue, lastId := [], 0;
    }

    // The state of the run whose shared part this object holds.
    ghost predicate Holds(s: State)
      reads this
    {
      s.capacity == capacity && s.queue == queue && s.lastId == lastId
    }

    // One pass through push up to its wait or its return. On a return the caller notifies
    // m_cond_not_empty and the waiters change as in Do.
    method TryPush(x: Value, back: bool, ghost s: State, ghost t: Thread, ghost wake: Option<Thread>)
      returns (done: bool)
      requires Holds(s) && |queue| <= capacity
      modifies this
      ensures Holds(PushSection(s, t, Item(x, back), wake)) && |queue| <= capacity
      ensures done <==> old(|queue|) < capacity
      ensures !done ==> queue == old(queue) && lastId == old(lastId)
      ensures done ==> lastId == old(lastId) + 1 && multiset(queue) == multiset(old(queue)) + multiset{Element(lastId, x)}
    {
      if |queue| == capacity {
        return false;
      }
      lastId := lastId + 1;
      var e := Element(lastId, x);
      if back {
        queue := queue + [e];
      } else {
        queue := [e] + queue;
      }
      return true;
    }

    // One pass through take_front up to its wait or its return.
    method TryTakeFront(ghost s: State, ghost t: Thread, ghost wake: Option<Thread>) returns (front: Option<Element>)
      requires Holds(s)
      modifies this`queue
      ensures Holds(TakeSection(s, t, wake))
      ensures front.None? <==> old(queue) == []
      ensures front.None? ==> queue == []
      ensures front.Some? ==> old(queue) == [front.value] + queue
    {
      if queue == [] {
        return None;
      }
      front := Some(queue[0]);
      queue := queue[1..];
    }
  }
}
