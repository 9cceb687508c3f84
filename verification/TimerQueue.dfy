/** The timer queue, flute/net/TimerQueue.cc: two sets index the same Timer objects, callbacks may
    add and cancel timers in the middle of a batch, and objects are owned through raw pointers.
    Addresses are numbers that the allocator may hand out again after a delete. */
module TimerQueue {

  // A Timer*. UINTPTR_MAX itself is only ever used as a search sentry.
  type Addr = p: int | 0 <= p < 0xffff_ffff_ffff_ffff

  // Times and intervals are in microseconds.
  datatype Timer = Timer(expire: int, interval: nat, repeat: bool, id: int)

  datatype Entry = Entry(time: int, ptr: Addr)

  // A TimerId, and equally an ActiveTimer.
  datatype TimerId = TimerId(ptr: Addr, id: int)

  datatype TimerFd = Disarmed | Armed(deadline: int, setAt: int)

  datatype State = State(
    heap: map<Addr, Timer>,      // the live Timer objects
    handed: set<Addr>,           // created, their add_timer_in_reactor still to run
    lastId: int,                 // g_global_timer_id
    timers: set<Entry>,
    active: set<TimerId>,
    calling: bool,
    canceling: set<TimerId>,
    expired: seq<Entry>,         // the batch in flight, [] outside handle_timerfd_read
    alarmed: nat,                // how many of the batch have been called back
    batchNow: int,
    fd: TimerFd,
    // calls of add_timer that have handed their timer over and not read its id yet: those of other
    // threads, and the one the reactor thread may be in
    reading: set<TimerId>,
    adding: Adding)

  datatype Adding = NotAdding | Adding(timerId: TimerId)

  datatype Step =
    // repeat is whether the interval is positive, before it is cut down to whole microseconds
    | New(ptr: Addr, when: int, interval: nat, repeat: bool, onReactor: bool)
    | ReadId(timerId: TimerId, onReactor: bool)
    | Add(ptr: Addr, clock: int)
    | Cancel(timerId: TimerId)
    | BeginBatch(now: int, batch: seq<Entry>, drained: bool)
    | Alarm
    | EndBatch(clock: int)

  function Max(a: int, b: int): int {
    if a < b then b else a
  }

  // The order of std::pair<Timestamp, Timer*>.
  predicate Before(e: Entry, f: Entry) {
    e.time < f.time || (e.time == f.time && e.ptr < f.ptr)
  }

  ghost predicate Ascending(es: seq<Entry>) {
    forall i, j :: 0 <= i < j < |es| ==> Before(es[i], es[j])
  }

  // The batch is the timers due by now, in order.
  ghost predicate IsBatch(timers: set<Entry>, now: int, batch: seq<Entry>) {
    && Ascending(batch)
    && (forall e :: e in batch <==> e in timers && e.time <= now)
  }

  // how_long_from_now: seconds and nanoseconds of a struct timespec.
  function HowLongFromNow(when: int, clock: int): (ts: (int, int))
    ensures 0 <= ts.1 < 1_000_000_000 && ts.1 % 1000 == 0
    ensures ts.0 * 1_000_000 + ts.1 / 1000 == Max(100, when - clock)
  {
    var microseconds := if when - clock < 100 then 100 else when - clock;
    (microseconds / 1_000_000, microseconds % 1_000_000 * 1000)
  }

  function ArmFor(when: int, clock: int): TimerFd {
    var ts := HowLongFromNow(when, clock);
    Armed(clock + ts.0 * 1_000_000 + ts.1 / 1000, clock)
  }

  function Restarted(t: Timer, now: int): Timer {
    t.(expire := if t.repeat then now + t.interval else 0)
  }

  function IdAt(heap: map<Addr, Timer>, p: Addr): TimerId
    requires p in heap
  {
    TimerId(p, heap[p].id)
  }

  // ---------- Steps, stated on whole sets ----------

  predicate IsLive(s: State, es: seq<Entry>) {
    forall i :: 0 <= i < |es| ==> es[i].ptr in s.heap
  }

  // Addresses of the given entries that reset re-arms: repeating and not cancelled.
  function Kept(s: State, es: seq<Entry>): set<Addr>
    requires IsLive(s, es)
  {
    set i | 0 <= i < |es| && s.heap[es[i].ptr].repeat && IdAt(s.heap, es[i].ptr) !in s.canceling :: es[i].ptr
  }

  function Pointers(es: seq<Entry>): set<Addr> {
    set i | 0 <= i < |es| :: es[i].ptr
  }

  // The live objects once reset has been through the given entries.
  function HeapAfter(s: State, es: seq<Entry>): map<Addr, Timer>
    requires IsLive(s, es)
  {
    map p | p in s.heap && (p in Pointers(es) ==> p in Kept(s, es)) ::
      if p in Kept(s, es) then Restarted(s.heap[p], s.batchNow) else s.heap[p]
  }

  function TimersAfter(s: State, es: seq<Entry>): set<Entry>
    requires IsLive(s, es)
  {
    s.timers + set p | p in Kept(s, es) :: Entry(s.batchNow + s.heap[p].interval, p)
  }

  function ActiveAfter(s: State, es: seq<Entry>): set<TimerId>
    requires IsLive(s, es)
  {
    s.active + set p | p in Kept(s, es) :: IdAt(s.heap, p)
  }

  ghost predicate IsEarliest(timers: set<Entry>, e: Entry) {
    e in timers && forall f :: f in timers ==> e == f || Before(e, f)
  }

  // The timerfd after reset: re-armed for the first timer unless that is not a valid Timestamp.
  ghost predicate FdAfterReset(timers: set<Entry>, fd: TimerFd, clock: int, fd': TimerFd) {
    if timers == {} then fd' == fd
    else exists e :: IsEarliest(timers, e) && fd' == if e.time > 0 then ArmFor(e.time, clock) else fd
  }

  // What one step does. The pointers a step follows are the subject of EveryAccessIsLive.
  ghost predicate Next(s: State, step: Step, s': State) {
    match step
    case New(p, when, interval, repeat, onReactor) =>
      && p !in s.heap && (onReactor ==> s.adding.NotAdding?)
      && var id := TimerId(p, s.lastId + 1);
         s' == s.(heap := s.heap[p := Timer(when, interval, repeat, id.id)],
                  lastId := s.lastId + 1, handed := s.handed + {p},
                  reading := if onReactor then s.reading else s.reading + {id},
                  adding := if onReactor then Adding(id) else s.adding)
    // the read through the pointer with which add_timer ends; on the reactor thread the insertion
    // has run by then, on another thread it may or may not have
    case ReadId(id, onReactor) =>
      if onReactor then s.adding == Adding(id) && id.ptr !in s.handed && s' == s.(adding := NotAdding)
      else id in s.reading && s' == s.(reading := s.reading - {id})
    case Add(p, clock) =>
      && p in s.handed && p in s.heap && (s.adding.Adding? ==> p == s.adding.timerId.ptr)
      && var when := s.heap[p].expire;
         s' == s.(handed := s.handed - {p},
                  timers := s.timers + {Entry(when, p)},
                  active := s.active + {IdAt(s.heap, p)},
                  fd := if forall e :: e in s.timers ==> when < e.time then ArmFor(when, clock) else s.fd)
    case Cancel(id) =>
      s.adding.NotAdding? &&
      if id in s.active then
        && id.ptr in s.heap
        && s' == s.(heap := s.heap - {id.ptr}, active := s.active - {id},
                    timers := s.timers - {Entry(s.heap[id.ptr].expire, id.ptr)})
      else
        s' == s.(canceling := if s.calling then s.canceling + {id} else s.canceling)
    case BeginBatch(now, batch, drained) =>
      && !s.calling && s.adding.NotAdding? && now > 0 && IsBatch(s.timers, now, batch)
      && s' == s.(timers := (set e | e in s.timers && now < e.time),
                  active := (set a | a in s.active && !(a.ptr in s.heap && s.heap[a.ptr].expire <= now)),
                  calling := true, canceling := {}, expired := batch, alarmed := 0, batchNow := now,
                  fd := if drained then Disarmed else s.fd)
    case Alarm =>
      && s.calling && s.adding.NotAdding? && s.alarmed < |s.expired|
      && s' == s.(alarmed := s.alarmed + 1)
    case EndBatch(clock) =>
      && s.calling && s.adding.NotAdding? && s.alarmed == |s.expired| && IsLive(s, s.expired)
      && FdAfterReset(TimersAfter(s, s.expired), s.fd, clock, s'.fd)
      && s' == s.(heap := HeapAfter(s, s.expired), timers := TimersAfter(s, s.expired),
                  active := ActiveAfter(s, s.expired), calling := false, expired := [], alarmed := 0, fd := s'.fd)
  }

  const INITIAL := State(map[], {}, 0, {}, {}, false, {}, [], 0, 0, Disarmed, {}, NotAdding)

  ghost predicate IsRun(steps: seq<Step>, states: seq<State>) {
    && |states| == |steps| + 1
    && forall k :: 0 <= k < |steps| ==> Next(states[k], steps[k], states[k + 1])
  }

  // ---------- The invariant ----------

  // Both sets index the same timers, by expiration and by identity.
  ghost predicate IndexesAgree(s: State) {
    && (forall e :: e in s.timers ==>
          e.ptr in s.heap && s.heap[e.ptr].expire == e.time && IdAt(s.heap, e.ptr) in s.active)
    && (forall a :: a in s.active ==>
          a.ptr in s.heap && s.heap[a.ptr].id == a.id && Entry(s.heap[a.ptr].expire, a.ptr) in s.timers)
  }

  ghost predicate IsQueued(s: State, p: Addr) {
    p in s.heap && Entry(s.heap[p].expire, p) in s.timers
  }

  // Every object is in exactly one place: still handed over, queued, or in the batch in flight.
  ghost predicate HasOnePlace(s: State) {
    && (forall p :: p in s.handed ==> p in s.heap && !IsQueued(s, p) && p !in Pointers(s.expired))
    && (forall p :: p in Pointers(s.expired) ==> p in s.heap && !IsQueued(s, p))
    && (forall p :: p in s.heap ==> p in s.handed || IsQueued(s, p) || p in Pointers(s.expired))
  }

  ghost predicate BatchIsSound(s: State) {
    && (forall i, j :: 0 <= i < j < |s.expired| ==> s.expired[i].ptr != s.expired[j].ptr)
    && (!s.calling ==> s.expired == [])
    && (s.calling ==> s.batchNow > 0)
    && s.alarmed <= |s.expired|
  }

  ghost predicate IdsAreUnique(s: State) {
    && (forall p :: p in s.heap ==> s.heap[p].id <= s.lastId)
    && (forall p, q :: p in s.heap && q in s.heap && s.heap[p].id == s.heap[q].id ==> p == q)
  }

  // The timerfd goes off in time for an entry: by its expiration, or 100 microseconds after
  // it was set if the expiration had passed.
  predicate InTimeFor(fd: TimerFd, e: Entry) {
    fd.Armed? && fd.deadline <= Max(e.time, fd.setAt + 100)
  }

  // No timer is forgotten. Inside a batch this is only owed to entries reset does not re-arm for.
  ghost predicate FdIsSet(s: State) {
    forall e :: e in s.timers && (s.calling ==> e.time <= 0) ==> InTimeFor(s.fd, e)
  }

  ghost predicate Inv(s: State) {
    IndexesAgree(s) && HasOnePlace(s) && BatchIsSound(s) && IdsAreUnique(s) && FdIsSet(s)
  }

  // ---------- Every step keeps the invariant ----------

  lemma NewKeepsPlaces(s: State, step: Step, s': State)
    requires IndexesAgree(s) && HasOnePlace(s) && step.New? && Next(s, step, s')
    ensures IndexesAgree(s') && HasOnePlace(s')
  {
    assert forall p :: p in s.heap ==> p in s'.heap && s'.heap[p] == s.heap[p] && p != step.ptr;
    assert forall p :: p in s.heap ==> (IsQueued(s', p) <==> IsQueued(s, p));
  }

  lemma NewKeepsIds(s: State, step: Step, s': State)
    requires IdsAreUnique(s) && step.New? && Next(s, step, s')
    ensures IdsAreUnique(s')
  {
  }

  lemma NewKeepsInv(s: State, step: Step, s': State)
    requires Inv(s) && step.New? && Next(s, step, s')
    ensures Inv(s')
  {
    hide FdAfterReset, HeapAfter, TimersAfter, ActiveAfter, IsBatch, IsLive;
    NewKeepsPlaces(s, step, s');
    NewKeepsIds(s, step, s');
    hide IndexesAgree, HasOnePlace, IdsAreUnique;
  }

  lemma ReadKeepsInv(s: State, step: Step, s': State)
    requires Inv(s) && step.ReadId? && Next(s, step, s')
    ensures Inv(s')
  {
    hide FdAfterReset, HeapAfter, TimersAfter, ActiveAfter, IsBatch, IsLive;
    assert s'.heap == s.heap && s'.timers == s.timers && s'.active == s.active && s'.handed == s.handed;
    assert s'.expired == s.expired && s'.fd == s.fd && s'.lastId == s.lastId && s'.calling == s.calling;
  }

  lemma AddKeepsIndexes(s: State, step: Step, s': State)
    requires IndexesAgree(s) && step.Add? && Next(s, step, s')
    ensures IndexesAgree(s')
  {
  }

  lemma AddKeepsPlaces(s: State, step: Step, s': State)
    requires HasOnePlace(s) && step.Add? && Next(s, step, s')
    ensures HasOnePlace(s')
  {
    forall p | p in s.heap
      ensures IsQueued(s', p) <==> IsQueued(s, p) || p == step.ptr
    {
    }
  }

  lemma AddKeepsFd(s: State, step: Step, s': State)
    requires FdIsSet(s) && step.Add? && Next(s, step, s')
    ensures FdIsSet(s')
  {
    var when := s.heap[step.ptr].expire;
    if !(forall f :: f in s.timers ==> when < f.time) {
      var f :| f in s.timers && f.time <= when;
      assert (s.calling ==> f.time <= 0) ==> InTimeFor(s.fd, f);
    }
  }

  lemma AddKeepsInv(s: State, step: Step, s': State)
    requires Inv(s) && step.Add? && Next(s, step, s')
    ensures Inv(s')
  {
    hide FdAfterReset, HeapAfter, TimersAfter, ActiveAfter, IsBatch, IsLive;
    AddKeepsIndexes(s, step, s');
    AddKeepsPlaces(s, step, s');
    AddKeepsFd(s, step, s');
    hide IndexesAgree, HasOnePlace, FdIsSet;
  }

  lemma CancelKeepsPlaces(s: State, step: Step, s': State)
    requires IndexesAgree(s) && HasOnePlace(s) && step.Cancel? && Next(s, step, s')
    ensures IndexesAgree(s') && HasOnePlace(s')
  {
    if step.timerId in s.active {
      assert IsQueued(s, step.timerId.ptr);
      forall p | p in s'.heap
        ensures p in s.heap && s'.heap[p] == s.heap[p] && p != step.timerId.ptr
        ensures IsQueued(s', p) <==> IsQueued(s, p)
      {
      }
    }
  }

  lemma CancelKeepsInv(s: State, step: Step, s': State)
    requires Inv(s) && step.Cancel? && Next(s, step, s')
    ensures Inv(s')
  {
    CancelKeepsPlaces(s, step, s');
    hide HasOnePlace, IndexesAgree;
  }

  lemma BeginBatchKeepsInv(s: State, step: Step, s': State)
    requires Inv(s) && step.BeginBatch? && Next(s, step, s')
    ensures Inv(s')
  {
    forall p | p in s.heap
      ensures p in Pointers(s'.expired) <==> IsQueued(s, p) && s.heap[p].expire <= step.now
    {
      var e := Entry(s.heap[p].expire, p);
      if IsQueued(s, p) && s.heap[p].expire <= step.now {
        assert e in step.batch;
      }
    }
    assert HasOnePlace(s') by { hide IdsAreUnique, FdIsSet; }
  }

  lemma AlarmKeepsInv(s: State, step: Step, s': State)
    requires Inv(s) && step.Alarm? && Next(s, step, s')
    ensures Inv(s')
  {
    assert s'.heap == s.heap && s'.lastId == s.lastId;
  }

  // What reset does to one object, of the batch or outside it.
  lemma EndBatchObject(s: State, step: Step, s': State, p: Addr)
    requires step.EndBatch? && Next(s, step, s')
    ensures p in s'.heap <==> p in s.heap && (p in Pointers(s.expired) ==> p in Kept(s, s.expired))
    ensures p in s'.heap && p !in Pointers(s.expired) ==> s'.heap[p] == s.heap[p]
    ensures p in Kept(s, s.expired) ==>
              && p in Pointers(s.expired) && p in s.heap
              && s'.heap[p] == s.heap[p].(expire := s.batchNow + s.heap[p].interval)
              && Entry(s.batchNow + s.heap[p].interval, p) in s'.timers && IdAt(s.heap, p) in s'.active
  {
    hide FdAfterReset;
  }

  lemma EndBatchEntry(s: State, step: Step, s': State, e: Entry)
    requires step.EndBatch? && Next(s, step, s')
    ensures e in s.timers ==> e in s'.timers
    ensures e in s'.timers && e !in s.timers ==>
              e.ptr in Kept(s, s.expired) && e.ptr in s.heap && e.time == s.batchNow + s.heap[e.ptr].interval
  {
    hide FdAfterReset;
  }

  lemma EndBatchId(s: State, step: Step, s': State, a: TimerId)
    requires step.EndBatch? && Next(s, step, s')
    ensures a in s.active ==> a in s'.active
    ensures a in s'.active && a !in s.active ==>
              a.ptr in Kept(s, s.expired) && a.ptr in s.heap && a.id == s.heap[a.ptr].id
  {
    hide FdAfterReset;
  }

  lemma EndBatchKeepsIndexes(s: State, step: Step, s': State)
    requires IndexesAgree(s) && HasOnePlace(s) && step.EndBatch? && Next(s, step, s')
    ensures IndexesAgree(s')
  {
    hide Next, Kept;
    forall e | e in s'.timers
      ensures e.ptr in s'.heap && s'.heap[e.ptr].expire == e.time && IdAt(s'.heap, e.ptr) in s'.active
    {
      EndBatchEntry(s, step, s', e);
      EndBatchObject(s, step, s', e.ptr);
      if e in s.timers {
        assert IsQueued(s, e.ptr);
        EndBatchId(s, step, s', IdAt(s.heap, e.ptr));
      }
    }
    forall a | a in s'.active
      ensures a.ptr in s'.heap && s'.heap[a.ptr].id == a.id && Entry(s'.heap[a.ptr].expire, a.ptr) in s'.timers
    {
      EndBatchId(s, step, s', a);
      EndBatchObject(s, step, s', a.ptr);
      if a in s.active {
        assert IsQueued(s, a.ptr);
        EndBatchEntry(s, step, s', Entry(s.heap[a.ptr].expire, a.ptr));
      }
    }
  }

  lemma EndBatchKeepsPlaces(s: State, step: Step, s': State)
    requires HasOnePlace(s) && step.EndBatch? && Next(s, step, s')
    ensures HasOnePlace(s')
  {
    assert s'.handed == s.handed && Pointers(s'.expired) == {};
    hide Next, Kept, Pointers;
    forall p | p in s.heap || p in s'.heap
      ensures p in s.handed ==> p in s'.heap && !IsQueued(s', p)
      ensures p in s'.heap && p !in s.handed ==> IsQueued(s', p)
    {
      EndBatchObject(s, step, s', p);
      if p in s'.heap && p in s.heap {
        EndBatchEntry(s, step, s', Entry(s.heap[p].expire, p));
      }
    }
  }

  lemma EndBatchKeepsFd(s: State, step: Step, s': State)
    requires FdIsSet(s) && BatchIsSound(s) && step.EndBatch? && Next(s, step, s')
    ensures FdIsSet(s')
  {
  }

  lemma EndBatchKeepsIds(s: State, step: Step, s': State)
    requires IdsAreUnique(s) && step.EndBatch? && Next(s, step, s')
    ensures IdsAreUnique(s')
  {
    assert s'.lastId == s.lastId;
    hide Next, Kept, Pointers;
    forall p | p in s'.heap ensures p in s.heap && s'.heap[p].id == s.heap[p].id {
      EndBatchObject(s, step, s', p);
    }
  }

  lemma EndBatchKeepsInv(s: State, step: Step, s': State)
    requires Inv(s) && step.EndBatch? && Next(s, step, s')
    ensures Inv(s')
  {
    EndBatchKeepsIndexes(s, step, s');
    EndBatchKeepsPlaces(s, step, s');
    EndBatchKeepsFd(s, step, s');
    EndBatchKeepsIds(s, step, s');
    hide IndexesAgree, HasOnePlace, FdIsSet, IdsAreUnique, HeapAfter, TimersAfter, ActiveAfter;
  }

  lemma NextKeepsInv(s: State, step: Step, s': State)
    requires Inv(s) && Next(s, step, s')
    ensures Inv(s')
  {
    hide *;
    match step
    case New(_, _, _, _, _) => NewKeepsInv(s, step, s');
    case ReadId(_, _) => ReadKeepsInv(s, step, s');
    case Add(_, _) => AddKeepsInv(s, step, s');
    case Cancel(_) => CancelKeepsInv(s, step, s');
    case BeginBatch(_, _, _) => BeginBatchKeepsInv(s, step, s');
    case Alarm => AlarmKeepsInv(s, step, s');
    case EndBatch(_) => EndBatchKeepsInv(s, step, s');
  }

  // ---------- Whole runs ----------

  ghost predicate IsRunFromStart(steps: seq<Step>, states: seq<State>) {
    IsRun(steps, states) && states[0] == INITIAL
  }

  /** In every reachable state, in the middle of a batch too, the two sets index the same timers,
      every object is in exactly one place, and no queued timer is forgotten by the timerfd. */
  lemma {:induction false} RunKeepsInv(steps: seq<Step>, states: seq<State>, k: nat)
    requires IsRunFromStart(steps, states) && k <= |steps|
    ensures Inv(states[k])
  {
    if k > 0 {
      RunKeepsInv(steps, states, k - 1);
      hide Inv, Next;
      NextKeepsInv(states[k - 1], steps[k - 1], states[k]);
    }
  }

  /** Read off the invariant for one object: the two sets agree on it, and it is in one place only. */
  lemma EveryTimerHasOnePlace(steps: seq<Step>, states: seq<State>, k: nat, p: Addr)
    requires IsRunFromStart(steps, states) && k <= |steps| && p in states[k].heap
    ensures var s := states[k];
            && (Entry(s.heap[p].expire, p) in s.timers <==> IdAt(s.heap, p) in s.active)
            && (if p in s.handed then !IsQueued(s, p) && p !in Pointers(s.expired)
                else IsQueued(s, p) <==> p !in Pointers(s.expired))
  {
    RunKeepsInv(steps, states, k);
    hide Next, FdIsSet, IdsAreUnique, Pointers;
  }

  /** Outside a batch every queued timer has the timerfd set for it in time. */
  lemma NoTimerIsForgotten(steps: seq<Step>, states: seq<State>, k: nat, e: Entry)
    requires IsRunFromStart(steps, states) && k <= |steps| && !states[k].calling && e in states[k].timers
    ensures states[k].fd.Armed? && states[k].fd.deadline <= Max(e.time, states[k].fd.setAt + 100)
  {
    RunKeepsInv(steps, states, k);
    hide Next, IndexesAgree, HasOnePlace, IdsAreUnique, BatchIsSound;
  }

  // The objects a step follows a pointer to.
  function Accesses(s: State, step: Step): set<Addr> {
    match step
    case Add(p, _) => {p}
    case Cancel(id) => if id in s.active then {id.ptr} else {}
    case BeginBatch(_, batch, _) => Pointers(batch)
    case Alarm => if s.alarmed < |s.expired| then {s.expired[s.alarmed].ptr} else {}
    case EndBatch(_) => Pointers(s.expired)
    case ReadId(id, _) => {id.ptr}
    case New(_, _, _, _, _) => {}
  }

  // The objects a step deletes.
  function Deletes(s: State, step: Step): set<Addr> {
    match step
    case Cancel(id) => if id in s.active then {id.ptr} else {}
    case EndBatch(_) => if IsLive(s, s.expired) then Pointers(s.expired) - Kept(s, s.expired) else {}
    case _ => {}
  }

  function DeletedIds(s: State, step: Step): set<int> {
    set p | p in Deletes(s, step) && p in s.heap :: s.heap[p].id
  }

  // The object at the id's address is live and still the id's own timer.
  predicate HoldsTimer(s: State, id: TimerId) {
    id.ptr in s.heap && s.heap[id.ptr].id == id.id
  }

  // The read at the end of an add_timer that runs on another thread.
  predicate IsRemoteRead(step: Step) {
    step.ReadId? && !step.onReactor
  }

  lemma StepAccessIsLive(s: State, step: Step, s': State)
    requires Inv(s) && Next(s, step, s') && (step.ReadId? ==> HoldsTimer(s, step.timerId))
    ensures Accesses(s, step) <= s.heap.Keys && Deletes(s, step) <= Accesses(s, step)
  {
    hide FdAfterReset, IdsAreUnique;
    match step
    case BeginBatch(_, batch, _) =>
      forall p | p in Pointers(batch) ensures p in s.heap {
        var i :| 0 <= i < |batch| && batch[i].ptr == p;
        assert batch[i] in batch;
      }
    case Alarm => assert s.expired[s.alarmed].ptr in Pointers(s.expired);
    case _ =>
  }

  lemma StepHeap(s: State, step: Step, s': State)
    requires Inv(s) && Next(s, step, s')
    ensures Deletes(s, step) <= s.heap.Keys
    ensures s'.heap.Keys == s.heap.Keys - Deletes(s, step) + (if step.New? then {step.ptr} else {})
  {
    hide FdAfterReset, IdsAreUnique, HasOnePlace;
  }

  // While the reactor thread is in add_timer, nothing it could do deletes the timer.
  predicate AddingIsLive(s: State) {
    s.adding.Adding? ==> HoldsTimer(s, s.adding.timerId)
  }

  lemma AddingStays(s: State, step: Step, s': State)
    requires Next(s, step, s') && AddingIsLive(s)
    ensures AddingIsLive(s')
  {
    hide FdAfterReset, IsBatch;
  }

  lemma {:induction false} RunKeepsAdding(steps: seq<Step>, states: seq<State>, k: nat)
    requires IsRunFromStart(steps, states) && k <= |steps|
    ensures AddingIsLive(states[k])
  {
    if k > 0 {
      RunKeepsAdding(steps, states, k - 1);
      hide Next, AddingIsLive;
      AddingStays(states[k - 1], steps[k - 1], states[k]);
    }
  }

  lemma ReactorReadIsLive(steps: seq<Step>, states: seq<State>, k: nat)
    requires IsRunFromStart(steps, states) && k < |steps| && steps[k].ReadId? && steps[k].onReactor
    ensures HoldsTimer(states[k], steps[k].timerId)
  {
    RunKeepsAdding(steps, states, k);
    assert Next(states[k], steps[k], states[k + 1]);
  }

  /** No pointer is followed, or deleted, unless its object is live; the one exception is the read
      with which add_timer ends on another thread (see ReadIsLiveIffSpared). The entry whose expiration
      reset reads after its deletions is live as well. */
  lemma EveryAccessIsLive(steps: seq<Step>, states: seq<State>, k: nat)
    requires IsRunFromStart(steps, states) && k < |steps|
    ensures !IsRemoteRead(steps[k]) ==> Accesses(states[k], steps[k]) <= states[k].heap.Keys
    ensures Deletes(states[k], steps[k]) <= states[k].heap.Keys
    ensures states[k + 1].heap.Keys !! Deletes(states[k], steps[k])
    ensures steps[k].EndBatch? ==>
              forall e :: IsEarliest(states[k + 1].timers, e) ==>
                e.ptr in states[k + 1].heap && states[k + 1].heap[e.ptr].expire == e.time
  {
    RunKeepsInv(steps, states, k);
    if steps[k].ReadId? && steps[k].onReactor { ReactorReadIsLive(steps, states, k); }
    QueuedIsLive(steps, states, k + 1);
    hide Inv, Next;
    if !IsRemoteRead(steps[k]) { StepAccessIsLive(states[k], steps[k], states[k + 1]); }
    StepHeap(states[k], steps[k], states[k + 1]);
    assert steps[k].New? ==> Deletes(states[k], steps[k]) == {};
  }

  lemma QueuedIsLive(steps: seq<Step>, states: seq<State>, k: nat)
    requires IsRunFromStart(steps, states) && k <= |steps|
    ensures forall e :: e in states[k].timers ==> e.ptr in states[k].heap && states[k].heap[e.ptr].expire == e.time
  {
    RunKeepsInv(steps, states, k);
    hide IsRun, HasOnePlace, BatchIsSound, IdsAreUnique, FdIsSet;
  }

  // The timer with this id has been deleted (ids are never given out again).
  ghost predicate IsGone(s: State, id: int) {
    id <= s.lastId && forall p :: p in s.heap ==> s.heap[p].id != id
  }

  // A step changes the id held at an address only by creating a new timer there.
  lemma StepKeepsIds(s: State, step: Step, s': State, p: Addr)
    requires Next(s, step, s') && p in s'.heap
    ensures (p in s.heap && s'.heap[p].id == s.heap[p].id) || (step.New? && p == step.ptr && s'.heap[p].id == s.lastId + 1)
  {
    hide FdAfterReset;
  }

  lemma GoneStays(s: State, step: Step, s': State, id: int)
    requires Next(s, step, s') && IsGone(s, id)
    ensures IsGone(s', id)
  {
    hide Next;
    forall p | p in s'.heap ensures s'.heap[p].id != id {
      StepKeepsIds(s, step, s', p);
    }
    LastIdGrows(s, step, s');
  }

  lemma LastIdGrows(s: State, step: Step, s': State)
    requires Next(s, step, s')
    ensures s.lastId <= s'.lastId
  {
    hide FdAfterReset;
  }

  lemma {:induction false} GoneForever(steps: seq<Step>, states: seq<State>, k: nat, m: nat, id: int)
    requires IsRun(steps, states) && k <= m <= |steps| && IsGone(states[k], id)
    ensures IsGone(states[m], id)
    decreases m - k
  {
    hide Next;
    if k < m {
      GoneStays(states[k], steps[k], states[k + 1], id);
      GoneForever(steps, states, k + 1, m, id);
    }
  }

  /** No timer is deleted twice, even though its address may be given out again. */
  lemma NeverDeletedTwice(steps: seq<Step>, states: seq<State>, k: nat, m: nat)
    requires IsRunFromStart(steps, states) && k < m < |steps|
    ensures DeletedIds(states[k], steps[k]) !! DeletedIds(states[m], steps[m])
  {
    RunKeepsInv(steps, states, k);
    EveryAccessIsLive(steps, states, k);
    hide Next, Deletes;
    forall id | id in DeletedIds(states[k], steps[k])
      ensures id !in DeletedIds(states[m], steps[m])
    {
      DeletedIsGone(states[k], steps[k], states[k + 1], id);
      GoneForever(steps, states, k + 1, m, id);
    }
  }

  lemma DeletedIsGone(s: State, step: Step, s': State, id: int)
    requires Inv(s) && Next(s, step, s') && id in DeletedIds(s, step)
    ensures IsGone(s', id)
  {
    StepHeap(s, step, s');
    LastIdGrows(s, step, s');
    hide Next, IndexesAgree, HasOnePlace, FdIsSet, BatchIsSound;
    assert !step.New?;
    hide Deletes;
    var q :| q in Deletes(s, step) && q in s.heap && s.heap[q].id == id;
    forall p | p in s'.heap ensures s'.heap[p].id != id {
      StepKeepsIds(s, step, s', p);
    }
  }

  // ---------- The read at the end of add_timer ----------

  lemma HeldStays(s: State, step: Step, s': State, id: TimerId)
    requires Inv(s) && Next(s, step, s') && HoldsTimer(s, id) && id.id !in DeletedIds(s, step)
    ensures HoldsTimer(s', id)
  {
    StepHeap(s, step, s');
    assert id.ptr !in Deletes(s, step);
    hide Next, Inv, Deletes;
    StepKeepsIds(s, step, s', id.ptr);
    if step.New? { NewIsElsewhere(s, step, s'); }
  }

  lemma NewIsElsewhere(s: State, step: Step, s': State)
    requires Next(s, step, s') && step.New?
    ensures step.ptr !in s.heap
  {
  }

  // The timer is not deleted by any of the steps n, ..., k - 1.
  ghost predicate IsSpared(steps: seq<Step>, states: seq<State>, n: nat, k: nat, id: int)
    requires |states| == |steps| + 1 && k <= |steps|
  {
    forall j :: n <= j < k ==> id !in DeletedIds(states[j], steps[j])
  }

  lemma {:induction false} HeldWhileSpared(steps: seq<Step>, states: seq<State>, n: nat, k: nat, id: TimerId)
    requires IsRunFromStart(steps, states) && n <= k <= |steps| && HoldsTimer(states[n], id)
    ensures HoldsTimer(states[k], id) <==> IsSpared(steps, states, n, k, id.id)
    decreases k - n
  {
    hide Next, Inv, DeletedIds, HoldsTimer;
    if n < k {
      RunKeepsInv(steps, states, n);
      if id.id in DeletedIds(states[n], steps[n]) {
        DeletedIsGone(states[n], steps[n], states[n + 1], id.id);
        GoneForever(steps, states, n + 1, k, id.id);
        GoneIsNotHeld(states[k], id);
      } else {
        HeldStays(states[n], steps[n], states[n + 1], id);
        HeldWhileSpared(steps, states, n + 1, k, id);
      }
    }
  }

  lemma GoneIsNotHeld(s: State, id: TimerId)
    requires IsGone(s, id.id)
    ensures !HoldsTimer(s, id)
  {
  }

  /** The read of an add_timer that created its timer at step n finds that timer, on whichever thread
      it runs, if and only if no step in between has deleted it. */
  lemma ReadIsLiveIffSpared(steps: seq<Step>, states: seq<State>, n: nat, k: nat)
    requires IsRunFromStart(steps, states) && n < k < |steps| && steps[n].New? && steps[k].ReadId?
    requires steps[k].timerId == TimerId(steps[n].ptr, states[n].lastId + 1)
    ensures HoldsTimer(states[k], steps[k].timerId) <==> IsSpared(steps, states, n + 1, k, steps[k].timerId.id)
  {
    assert Next(states[n], steps[n], states[n + 1]);
    assert HoldsTimer(states[n + 1], steps[k].timerId);
    HeldWhileSpared(steps, states, n + 1, k, steps[k].timerId);
  }

  ghost predicate NeverDangles(onReactor: bool) {
    forall steps: seq<Step>, states: seq<State>, k: nat ::
      IsRunFromStart(steps, states) && k < |steps| && steps[k].ReadId? && steps[k].onReactor == onReactor ==>
        HoldsTimer(states[k], steps[k].timerId)
  }

  /** add_timer reads the id of its own live timer in every run if and only if it is called on the
      reactor thread. */
  lemma AddTimerIsSafe(onReactor: bool)
    ensures NeverDangles(onReactor) <==> onReactor
  {
    hide HoldsTimer, Next;
    if onReactor {
      forall steps: seq<Step>, states: seq<State>, k: nat |
          IsRunFromStart(steps, states) && k < |steps| && steps[k].ReadId? && steps[k].onReactor
        ensures HoldsTimer(states[k], steps[k].timerId)
      {
        ReactorReadIsLive(steps, states, k);
      }
    } else {
      var steps, states := DanglingRead(0);
      DeadIsNotHeld(states[5], steps[5].timerId);
    }
  }

  lemma DeadIsNotHeld(s: State, id: TimerId)
    requires id.ptr !in s.heap
    ensures !HoldsTimer(s, id)
  {
  }

  // A one-shot timer of another thread, up to its deletion.
  function Created(p: Addr): State {
    INITIAL.(heap := map[p := Timer(1, 0, false, 1)], lastId := 1, handed := {p}, reading := {TimerId(p, 1)})
  }

  function Queued(p: Addr): State {
    Created(p).(handed := {}, timers := {Entry(1, p)}, active := {TimerId(p, 1)}, fd := ArmFor(1, 0))
  }

  function Expired(p: Addr): State {
    Created(p).(handed := {}, calling := true, expired := [Entry(1, p)], batchNow := 200)
  }

  function Deleted(p: Addr): State {
    INITIAL.(lastId := 1, batchNow := 200, reading := {TimerId(p, 1)})
  }

  lemma TimerIsQueued(p: Addr)
    ensures Next(INITIAL, New(p, 1, 0, false, false), Created(p))
    ensures Next(Created(p), Add(p, 0), Queued(p))
  {
  }

  lemma TimerExpires(p: Addr)
    ensures Next(Queued(p), BeginBatch(200, [Entry(1, p)], true), Expired(p))
    ensures Next(Expired(p), Alarm, Expired(p).(alarmed := 1))
  {
    var s, s' := Queued(p), Expired(p);
    assert IsBatch(s.timers, 200, [Entry(1, p)]);
    assert s'.timers == set e | e in s.timers && 200 < e.time;
    assert s'.active == set a | a in s.active && !(a.ptr in s.heap && s.heap[a.ptr].expire <= 200);
  }

  lemma TimerIsDeleted(p: Addr)
    ensures Next(Expired(p).(alarmed := 1), EndBatch(200), Deleted(p))
  {
    var s := Expired(p).(alarmed := 1);
    assert IsLive(s, s.expired) && Pointers(s.expired) == {p} by { assert s.expired[0].ptr == p; }
    assert Kept(s, s.expired) == {};
    assert HeapAfter(s, s.expired) == map[];
    assert TimersAfter(s, s.expired) == {} && ActiveAfter(s, s.expired) == {};
  }

  lemma ExtendRun(steps: seq<Step>, states: seq<State>, step: Step, s: State)
    requires IsRun(steps, states) && Next(states[|steps|], step, s)
    ensures IsRun(steps + [step], states + [s])
  {
    hide Next;
  }

  lemma RunToDeletion(p: Addr) returns (steps: seq<Step>, states: seq<State>)
    ensures IsRunFromStart(steps, states) && |steps| == 5 && |states| == 6
    ensures steps[0] == New(p, 1, 0, false, false) && states[5] == Deleted(p)
  {
    TimerIsQueued(p);
    TimerExpires(p);
    TimerIsDeleted(p);
    hide Next, Created, Queued, Expired, Deleted;
    steps := [New(p, 1, 0, false, false), Add(p, 0), BeginBatch(200, [Entry(1, p)], true), Alarm, EndBatch(200)];
    states := [INITIAL, Created(p), Queued(p), Expired(p), Expired(p).(alarmed := 1), Deleted(p)];
  }

  /** Such a run: another thread hands a timer over, the reactor inserts it, calls it back and deletes
      it, and only then does the thread read the id through its pointer. */
  lemma DanglingRead(p: Addr) returns (steps: seq<Step>, states: seq<State>)
    ensures IsRunFromStart(steps, states) && |steps| == 6
    ensures steps[0] == New(p, 1, 0, false, false) && steps[5] == ReadId(TimerId(p, 1), false)
    ensures p !in states[5].heap
  {
    steps, states := RunToDeletion(p);
    var s := Deleted(p).(reading := {});
    ExtendRun(steps, states, ReadId(TimerId(p, 1), false), s);
    steps, states := steps + [ReadId(TimerId(p, 1), false)], states + [s];
  }

  /** If the address has been given out again by then, the call returns the id of the other timer. */
  lemma ReadOfAnotherTimer(p: Addr) returns (steps: seq<Step>, states: seq<State>)
    ensures IsRunFromStart(steps, states) && |steps| == 7
    ensures steps[0] == New(p, 1, 0, false, false) && steps[6] == ReadId(TimerId(p, 1), false)
    ensures p in states[6].heap && states[6].heap[p].id == 2
  {
    steps, states := RunToDeletion(p);
    var again, read := New(p, 300, 0, false, false), ReadId(TimerId(p, 1), false);
    var s := Deleted(p).(heap := map[p := Timer(300, 0, false, 2)], lastId := 2, handed := {p},
                         reading := {TimerId(p, 1), TimerId(p, 2)});
    assert Next(Deleted(p), again, s);
    var s' := s.(reading := s.reading - {TimerId(p, 1)});
    assert Next(s, read, s');
    hide Next;
    ExtendRun(steps, states, again, s);
    steps, states := steps + [again], states + [s];
    ExtendRun(steps, states, read, s');
    steps, states := steps + [read], states + [s'];
  }

  // ---------- Cancellation ----------

  // The id was returned by add_timer and its add_timer_in_reactor has run: a timer with it lives
  // at its address or nowhere.
  ghost predicate IsInserted(s: State, id: TimerId) {
    && id.id <= s.lastId
    && forall p :: p in s.heap && s.heap[p].id == id.id ==> p == id.ptr && p !in s.handed
  }

  // Whatever is left of a cancelled timer: at most its place in the batch in flight.
  ghost predicate IsDoomed(s: State, id: TimerId) {
    && IsInserted(s, id)
    && id !in s.active
    && (id.ptr in s.heap && s.heap[id.ptr].id == id.id ==> s.calling && id in s.canceling)
  }

  lemma InsertedStays(s: State, step: Step, s': State, id: TimerId)
    requires Next(s, step, s') && IsInserted(s, id)
    ensures IsInserted(s', id)
  {
    LastIdGrows(s, step, s');
    assert forall p :: p in s'.handed ==> p in s.handed || (step.New? && p == step.ptr) by { hide FdAfterReset; }
    hide Next;
    forall p | p in s'.heap && s'.heap[p].id == id.id ensures p == id.ptr && p !in s'.handed {
      StepKeepsIds(s, step, s', p);
    }
  }

  lemma {:induction false} InsertedForever(steps: seq<Step>, states: seq<State>, k: nat, m: nat, id: TimerId)
    requires IsRun(steps, states) && k <= m <= |steps| && IsInserted(states[k], id)
    ensures IsInserted(states[m], id)
    decreases m - k
  {
    hide Next, IsInserted;
    if k < m {
      InsertedStays(states[k], steps[k], states[k + 1], id);
      InsertedForever(steps, states, k + 1, m, id);
    }
  }

  lemma AddInserts(s: State, step: Step, s': State)
    requires Inv(s) && step.Add? && Next(s, step, s')
    ensures IsInserted(s', IdAt(s.heap, step.ptr))
  {
    hide IndexesAgree, HasOnePlace, FdIsSet, BatchIsSound;
  }

  lemma CancelDooms(s: State, step: Step, s': State)
    requires Inv(s) && step.Cancel? && Next(s, step, s') && IsInserted(s, step.timerId)
    ensures IsDoomed(s', step.timerId)
    ensures !s.calling ==> IsGone(s', step.timerId.id)
  {
    hide IdsAreUnique, FdIsSet;
    var id := step.timerId;
    if id !in s.active && id.ptr in s.heap && s.heap[id.ptr].id == id.id {
      assert id.ptr in Pointers(s.expired);
    }
  }

  lemma DoomedStays(s: State, step: Step, s': State, id: TimerId)
    requires Inv(s) && Next(s, step, s') && IsDoomed(s, id)
    ensures IsDoomed(s', id)
    ensures step.BeginBatch? || step.EndBatch? ==> IsGone(s', id.id)
  {
    InsertedStays(s, step, s', id);
    if step.EndBatch? {
      DoomedDropped(s, step, s', id);
    } else {
      hide IdsAreUnique, FdIsSet, HasOnePlace, IndexesAgree;
      assert id !in s'.active;
    }
  }

  // reset does not re-arm a cancelled timer.
  lemma DoomedDropped(s: State, step: Step, s': State, id: TimerId)
    requires Inv(s) && step.EndBatch? && Next(s, step, s') && IsDoomed(s, id) && IsInserted(s', id)
    ensures IsGone(s', id.id) && id !in s'.active
  {
    assert id.ptr in Kept(s, s.expired) ==> IdAt(s.heap, id.ptr) !in s.canceling by { hide FdAfterReset; }
    EndBatchObject(s, step, s', id.ptr);
    EndBatchId(s, step, s', id);
    hide Next, Kept, IdsAreUnique, FdIsSet, BatchIsSound;
    assert id.ptr in s.heap && s.heap[id.ptr].id == id.id ==> !IsQueued(s, id.ptr);
  }

  lemma {:induction false} DoomedForever(steps: seq<Step>, states: seq<State>, k: nat, m: nat, id: TimerId)
    requires IsRunFromStart(steps, states) && k <= m <= |steps| && IsDoomed(states[k], id)
    ensures IsDoomed(states[m], id)
    ensures forall j :: k <= j < m && (steps[j].BeginBatch? || steps[j].EndBatch?) ==> IsGone(states[m], id.id)
    decreases m - k
  {
    hide Next, IsDoomed, Inv, IsGone;
    if k < m {
      RunKeepsInv(steps, states, k);
      DoomedStays(states[k], steps[k], states[k + 1], id);
      DoomedForever(steps, states, k + 1, m, id);
      if steps[k].BeginBatch? || steps[k].EndBatch? {
        GoneForever(steps, states, k + 1, m, id.id);
      }
    }
  }

  // Step j calls back the timer with this id.
  ghost predicate Fires(steps: seq<Step>, states: seq<State>, j: nat, id: TimerId)
    requires IsRun(steps, states) && j < |steps|
  {
    && steps[j].Alarm? && states[j].alarmed < |states[j].expired|
    && var p := states[j].expired[states[j].alarmed].ptr;
       p in states[j].heap && IdAt(states[j].heap, p) == id
  }

  /** Once an inserted timer is cancelled it only ever fires again in the very batch that was being
      called back when it was cancelled, whether it was cancelled before it expired, in its own
      callback or in another callback of its batch. */
  lemma CancelledNeverFiresAgain(steps: seq<Step>, states: seq<State>, a: nat, k: nat, j: nat, id: TimerId)
    requires IsRunFromStart(steps, states) && a < k < j < |steps|
    requires steps[a].Add? && steps[a].ptr in states[a].heap && id == IdAt(states[a].heap, steps[a].ptr)
    requires steps[k] == Cancel(id)
    requires Fires(steps, states, j, id)
    ensures states[k].calling
    ensures forall m :: k < m < j ==> !steps[m].BeginBatch? && !steps[m].EndBatch?
  {
    hide Next, Inv, IsDoomed, IsInserted;
    RunKeepsInv(steps, states, a);
    AddInserts(states[a], steps[a], states[a + 1]);
    InsertedForever(steps, states, a + 1, k, id);
    RunKeepsInv(steps, states, k);
    CancelDooms(states[k], steps[k], states[k + 1]);
    DoomedForever(steps, states, k + 1, j, id);
    if !states[k].calling {
      GoneForever(steps, states, k + 1, j, id.id);
    }
  }

  /** A cancel, with a stale id of a reused address too, touches no timer but the one with its id. */
  lemma CancelTouchesOnlyItsTimer(s: State, step: Step, s': State, p: Addr)
    requires Inv(s) && step.Cancel? && Next(s, step, s')
    requires p in s.heap && s.heap[p].id != step.timerId.id
    ensures p in s'.heap && s'.heap[p] == s.heap[p]
    ensures IsQueued(s', p) <==> IsQueued(s, p)
    ensures IdAt(s.heap, p) in s'.active <==> IdAt(s.heap, p) in s.active
    ensures IdAt(s.heap, p) in s'.canceling <==> IdAt(s.heap, p) in s.canceling
    ensures s'.expired == s.expired && s'.handed == s.handed
  {
    hide HasOnePlace, FdIsSet, BatchIsSound;
  }

  // ---------- The terms a timer is created on ----------

  function Creations(steps: seq<Step>): nat {
    if steps == [] then 0
    else Creations(steps[..|steps| - 1]) + if steps[|steps| - 1].New? then 1 else 0
  }

  lemma LastIdStep(s: State, step: Step, s': State)
    requires Next(s, step, s')
    ensures s'.lastId == s.lastId + if step.New? then 1 else 0
  {
    hide FdAfterReset, HeapAfter, TimersAfter, ActiveAfter, IsBatch;
  }

  /** Ids are given out in order of creation. */
  lemma {:induction false} IdsAreCounted(steps: seq<Step>, states: seq<State>, k: nat)
    requires IsRunFromStart(steps, states) && k <= |steps|
    ensures states[k].lastId == Creations(steps[..k])
  {
    if k > 0 {
      IdsAreCounted(steps, states, k - 1);
      hide Next;
      LastIdStep(states[k - 1], steps[k - 1], states[k]);
      assert steps[..k][..k - 1] == steps[..k - 1];
    }
  }

  // The id of the timer that step n creates.
  function IdOf(steps: seq<Step>, n: nat): TimerId
    requires n < |steps| && steps[n].New?
  {
    TimerId(steps[n].ptr, Creations(steps[..n]) + 1)
  }

  // As long as the timer lives it has the interval and the repetition it was created with, and until
  // it is queued for the first time also the expiration.
  predicate HasTerms(s: State, id: TimerId, step: Step)
    requires step.New?
  {
    && id.id <= s.lastId
    && (HoldsTimer(s, id) ==>
          && s.heap[id.ptr].interval == step.interval && s.heap[id.ptr].repeat == step.repeat
          && (id.ptr in s.handed ==> s.heap[id.ptr].expire == step.when))
  }

  // A step changes nothing of a live timer but the expiration of one in the batch.
  lemma StepKeepsTimer(s: State, step: Step, s': State, p: Addr)
    requires Next(s, step, s') && p in s.heap && p in s'.heap && !(step.New? && step.ptr == p)
    ensures s'.heap[p].interval == s.heap[p].interval && s'.heap[p].repeat == s.heap[p].repeat
    ensures s'.heap[p].id == s.heap[p].id
    ensures p !in Pointers(s.expired) ==> s'.heap[p].expire == s.heap[p].expire
    ensures p in s'.handed ==> p in s.handed
  {
    hide FdAfterReset, TimersAfter, ActiveAfter, IsBatch;
  }

  lemma TermsStay(s: State, step: Step, s': State, id: TimerId, create: Step)
    requires Inv(s) && Next(s, step, s') && create.New? && HasTerms(s, id, create)
    ensures HasTerms(s', id, create)
  {
    LastIdGrows(s, step, s');
    if HoldsTimer(s', id) {
      StepKeepsIds(s, step, s', id.ptr);
      hide Next;
      if step.New? { NewIsElsewhere(s, step, s'); }
      StepKeepsTimer(s, step, s', id.ptr);
    }
    hide Next, IndexesAgree, FdIsSet, IdsAreUnique, BatchIsSound, Pointers;
  }

  lemma NewHasTerms(s: State, step: Step, s': State)
    requires Next(s, step, s') && step.New?
    ensures HasTerms(s', TimerId(step.ptr, s.lastId + 1), step)
  {
  }

  lemma {:induction false} TermsAreKept(steps: seq<Step>, states: seq<State>, n: nat, k: nat)
    requires IsRunFromStart(steps, states) && n < k <= |steps| && steps[n].New?
    ensures HasTerms(states[k], IdOf(steps, n), steps[n])
    decreases k
  {
    IdsAreCounted(steps, states, n);
    hide Next, Inv, HasTerms;
    if k == n + 1 {
      NewHasTerms(states[n], steps[n], states[n + 1]);
    } else {
      TermsAreKept(steps, states, n, k - 1);
      RunKeepsInv(steps, states, k - 1);
      TermsStay(states[k - 1], steps[k - 1], states[k], IdOf(steps, n), steps[n]);
    }
  }

  /** A timer is first queued at the time it was created for. */
  lemma FirstEntryIsAsAsked(steps: seq<Step>, states: seq<State>, n: nat, a: nat)
    requires IsRunFromStart(steps, states) && n < a < |steps| && steps[n].New?
    requires steps[a].Add? && steps[a].ptr == steps[n].ptr && HoldsTimer(states[a], IdOf(steps, n))
    ensures Entry(steps[n].when, steps[n].ptr) in states[a + 1].timers && IdOf(steps, n) in states[a + 1].active
  {
    TermsAreKept(steps, states, n, a);
    OneStep(steps, states, a);
    hide IsRun, Creations;
  }

  // A timer in the batch stays there, and the requests to cancel it are noted.
  lemma BatchedStays(s: State, step: Step, s': State, id: TimerId)
    requires Inv(s) && Next(s, step, s') && !step.EndBatch?
    requires s.calling && HoldsTimer(s, id) && id.ptr in Pointers(s.expired)
    ensures s'.calling && s'.expired == s.expired && s'.batchNow == s.batchNow && HoldsTimer(s', id)
    ensures id in s'.canceling <==> id in s.canceling || step == Cancel(id)
  {
    hide FdAfterReset, HeapAfter, TimersAfter, ActiveAfter, IsBatch, FdIsSet, IdsAreUnique, BatchIsSound, Pointers;
  }

  // Steps b and k begin and end one batch.
  predicate IsWholeBatch(steps: seq<Step>, b: nat, k: nat) {
    && b < k < |steps| && steps[b].BeginBatch? && steps[k].EndBatch?
    && forall j :: b < j < k ==> !steps[j].EndBatch?
  }

  ghost predicate IsCancelledIn(steps: seq<Step>, b: nat, k: nat, id: TimerId)
    requires k <= |steps|
  {
    exists j :: b < j < k && steps[j] == Cancel(id)
  }

  lemma BatchBegins(s: State, step: Step, s': State, id: TimerId)
    requires Next(s, step, s') && step.BeginBatch? && HoldsTimer(s, id)
    ensures s'.calling && s'.expired == step.batch && s'.batchNow == step.now && HoldsTimer(s', id) && s'.canceling == {}
  {
  }

  lemma {:induction false} DuringBatch(steps: seq<Step>, states: seq<State>, b: nat, k: nat, m: nat, id: TimerId)
    requires IsRunFromStart(steps, states) && IsWholeBatch(steps, b, k) && b < m <= k
    requires HoldsTimer(states[b], id) && id.ptr in Pointers(steps[b].batch)
    ensures states[m].calling && states[m].expired == steps[b].batch && states[m].batchNow == steps[b].now
    ensures HoldsTimer(states[m], id) && (id in states[m].canceling <==> IsCancelledIn(steps, b, m, id))
    decreases m
  {
    hide Next, Inv, HoldsTimer, Pointers;
    if m == b + 1 {
      BatchBegins(states[b], steps[b], states[m], id);
    } else {
      DuringBatch(steps, states, b, k, m - 1, id);
      RunKeepsInv(steps, states, m - 1);
      BatchedStays(states[m - 1], steps[m - 1], states[m], id);
      if IsCancelledIn(steps, b, m, id) && steps[m - 1] != Cancel(id) {
        var j :| b < j < m && steps[j] == Cancel(id);
        assert j < m - 1;
      }
    }
  }

  /** At the end of a batch that held it, a timer is queued again, at the time of the batch plus the
      interval it was created with, if it was created to repeat and not cancelled in that batch;
      otherwise it is gone. */
  lemma BatchEndsAsAsked(steps: seq<Step>, states: seq<State>, n: nat, b: nat, k: nat)
    requires IsRunFromStart(steps, states) && n < b && IsWholeBatch(steps, b, k) && steps[n].New?
    requires HoldsTimer(states[b], IdOf(steps, n)) && steps[n].ptr in Pointers(steps[b].batch)
    ensures var id := IdOf(steps, n);
            if steps[n].repeat && !IsCancelledIn(steps, b, k, id)
            then && HoldsTimer(states[k + 1], id) && id in states[k + 1].active
                 && Entry(steps[b].now + steps[n].interval, steps[n].ptr) in states[k + 1].timers
            else IsGone(states[k + 1], id.id)
  {
    hide Inv, Next, IsCancelledIn, Pointers, IsGone, Creations;
    var id := IdOf(steps, n);
    DuringBatch(steps, states, b, k, k, id);
    TermsAreKept(steps, states, n, k);
    RunKeepsInv(steps, states, k);
    OneStep(steps, states, k);
    ResetTimer(states[k], steps[k], states[k + 1], id);
  }

  lemma OneStep(steps: seq<Step>, states: seq<State>, k: nat)
    requires IsRun(steps, states) && k < |steps|
    ensures Next(states[k], steps[k], states[k + 1])
  {
  }

  lemma ResetTimer(s: State, step: Step, s': State, id: TimerId)
    requires Inv(s) && step.EndBatch? && Next(s, step, s') && HoldsTimer(s, id) && id.ptr in Pointers(s.expired)
    ensures if s.heap[id.ptr].repeat && id !in s.canceling
            then && HoldsTimer(s', id) && id in s'.active
                 && Entry(s.batchNow + s.heap[id.ptr].interval, id.ptr) in s'.timers
            else IsGone(s', id.id)
  {
    hide Next, Inv, Pointers, Kept, IsGone;
    EndBatchObject(s, step, s', id.ptr);
    KeptAt(s, step, s', id.ptr);
    if !(s.heap[id.ptr].repeat && id !in s.canceling) {
      GoneWithoutPlace(s, step, s', id);
    }
  }

  lemma GoneWithoutPlace(s: State, step: Step, s': State, id: TimerId)
    requires Inv(s) && Next(s, step, s') && !step.New? && HoldsTimer(s, id) && id.ptr !in s'.heap
    ensures IsGone(s', id.id)
  {
    LastIdGrows(s, step, s');
    hide Next, IndexesAgree, HasOnePlace, FdIsSet, BatchIsSound;
    forall p | p in s'.heap ensures s'.heap[p].id != id.id {
      StepKeepsIds(s, step, s', p);
    }
  }

  lemma KeptAt(s: State, step: Step, s': State, p: Addr)
    requires step.EndBatch? && Next(s, step, s') && p in s.heap && p in Pointers(s.expired)
    ensures p in Kept(s, s.expired) <==> s.heap[p].repeat && IdAt(s.heap, p) !in s.canceling
  {
    hide FdAfterReset, HeapAfter, TimersAfter, ActiveAfter;
  }

  lemma AlarmStepCounts(s: State, step: Step, s': State)
    requires Next(s, step, s') && !step.EndBatch? && s.calling
    ensures s'.calling && s'.expired == s.expired && s'.alarmed == s.alarmed + if step.Alarm? then 1 else 0
  {
    hide IsBatch;
  }

  lemma {:induction false} FindAlarm(steps: seq<Step>, states: seq<State>, b: nat, k: nat, m: nat, i: nat) returns (j: nat)
    requires IsRun(steps, states) && IsWholeBatch(steps, b, k) && b < m <= k
    ensures states[m].calling && states[m].expired == steps[b].batch
    ensures i < states[m].alarmed ==> b < j < m && steps[j].Alarm? && states[j].alarmed == i && states[j].expired == steps[b].batch
    decreases m
  {
    hide Next;
    j := 0;
    if m == b + 1 {
      AlarmsStart(states[b], steps[b], states[m]);
    } else {
      j := FindAlarm(steps, states, b, k, m - 1, i);
      AlarmStepCounts(states[m - 1], steps[m - 1], states[m]);
      if i == states[m - 1].alarmed { j := m - 1; }
    }
  }

  lemma AlarmsStart(s: State, step: Step, s': State)
    requires Next(s, step, s') && step.BeginBatch?
    ensures s'.calling && s'.expired == step.batch && s'.alarmed == 0
  {
  }

  lemma AllAlarmed(s: State, step: Step, s': State)
    requires Next(s, step, s') && step.EndBatch?
    ensures s.alarmed == |s.expired|
  {
    hide FdAfterReset;
  }

  /** Every timer of a batch is called back before the batch ends, and in the order of the batch. */
  lemma EveryBatchedTimerIsCalled(steps: seq<Step>, states: seq<State>, b: nat, k: nat, i: nat) returns (j: nat)
    requires IsRunFromStart(steps, states) && IsWholeBatch(steps, b, k) && i < |steps[b].batch|
    ensures b < j < k && steps[j].Alarm? && states[j].alarmed == i && states[j].expired == steps[b].batch
  {
    hide Next;
    j := FindAlarm(steps, states, b, k, k, i);
    OneStep(steps, states, k);
    AllAlarmed(states[k], steps[k], states[k + 1]);
  }

  // ---------- When the timerfd goes off ----------

  lemma EarliestIsUnique(timers: set<Entry>, e: Entry, f: Entry)
    requires IsEarliest(timers, e) && IsEarliest(timers, f)
    ensures e == f
  {
  }

  lemma ArmedFor(when: int, clock: int)
    ensures ArmFor(when, clock) == Armed(Max(when, clock + 100), clock)
  {
  }

  /** The timerfd is set for the expiration of the earliest timer exactly, 100 microseconds ahead at
      least: by an insertion that comes first, and at the end of a batch. */
  lemma ArmedForEarliest(s: State, step: Step, s': State, e: Entry)
    requires Next(s, step, s') && IsEarliest(s'.timers, e)
    ensures step.Add? && e.ptr == step.ptr && (forall f :: f in s.timers ==> e.time < f.time) ==>
              s'.fd == Armed(Max(e.time, step.clock + 100), step.clock)
    ensures step.EndBatch? && e.time > 0 ==> s'.fd == Armed(Max(e.time, step.clock + 100), step.clock)
    ensures step.Cancel? || step.Alarm? || step.New? || step.ReadId? ==> s'.fd == s.fd
  {
    hide HeapAfter, ActiveAfter, IsBatch, ArmFor, HowLongFromNow;
    match step
    case Add(p, clock) => if p in s.heap { ArmedFor(s.heap[p].expire, clock); }
    case EndBatch(clock) =>
      ArmedFor(e.time, clock);
      var f :| IsEarliest(s'.timers, f) && s'.fd == if f.time > 0 then ArmFor(f.time, clock) else s.fd;
      EarliestIsUnique(s'.timers, e, f);
    case _ =>
  }

  // ---------- Sizes and batches ----------

  lemma {:induction false} IndexedSizes(s: State)
    requires IndexesAgree(s)
    ensures |s.timers| == |s.active|
    decreases s.timers
  {
    if s.timers == {} {
      if a :| a in s.active { assert Entry(s.heap[a.ptr].expire, a.ptr) in s.timers; }
    } else {
      var e :| e in s.timers;
      var a := IdAt(s.heap, e.ptr);
      IndexedSizes(s.(timers := s.timers - {e}, active := s.active - {a}));
    }
  }

  /** The sizes the code asserts equal are equal, in every reachable state. */
  lemma SizesAgree(steps: seq<Step>, states: seq<State>, k: nat)
    requires IsRunFromStart(steps, states) && k <= |steps|
    ensures |states[k].timers| == |states[k].active|
  {
    RunKeepsInv(steps, states, k);
    hide Next, HasOnePlace, FdIsSet, IdsAreUnique, BatchIsSound, IndexesAgree;
    IndexedSizes(states[k]);
  }

  /** The batch is determined by the queue and the time. */
  lemma {:induction false} BatchIsDetermined(timers: set<Entry>, now: int, b: seq<Entry>, c: seq<Entry>)
    requires IsBatch(timers, now, b) && IsBatch(timers, now, c)
    ensures b == c
    decreases |b|
  {
    assert (b != [] ==> b[0] in b) && (c != [] ==> c[0] in c);
    if b != [] && c != [] {
      assert b[0] in c && c[0] in b;
      assert !Before(b[0], c[0]) && !Before(c[0], b[0]);
      TailIsBatch(timers, now, b);
      TailIsBatch(timers, now, c);
      BatchIsDetermined(timers - {b[0]}, now, b[1..], c[1..]);
      assert b == [b[0]] + b[1..] && c == [c[0]] + c[1..];
    }
  }

  lemma TailIsBatch(timers: set<Entry>, now: int, b: seq<Entry>)
    requires IsBatch(timers, now, b) && b != []
    ensures IsBatch(timers - {b[0]}, now, b[1..])
  {
    assert b == [b[0]] + b[1..];
    assert forall i :: 0 <= i < |b[1..]| ==> b[1..][i] == b[i + 1];
  }
}
