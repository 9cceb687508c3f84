/** The code of flute/net/TimerQueue.cc and Timer.cc, method by method, against the steps of
    module TimerQueue. Timer objects live in an explicit heap because delete frees their addresses. */
module TimerQueueImpl {
  import opened Options
  import opened TimerQueue

  class Queue {
    var heap: map<Addr, Timer>
    var handed: set<Addr>        // the timers bound in tasks that will run add_timer_in_reactor
    var lastId: int
    var timers: set<Entry>
    var active: set<TimerId>
    var calling: bool
    var canceling: set<TimerId>
    var fd: TimerFd
    var reading: set<TimerId>    // the calls of add_timer on other threads that have not returned
    ghost var adding: Adding
    ghost var expired: seq<Entry>
    ghost var alarmed: nat
    ghost var batchNow: int

    ghost function Abs(): State
      reads this
    {
      State(heap, handed, lastId, timers, active, calling, canceling, expired, alarmed, batchNow, fd,
            reading, adding)
    }

    constructor ()
      ensures Abs() == INITIAL && Inv(Abs())
    {
      heap, lastId, timers, active, calling, canceling, fd := map[], 0, {}, {}, false, {}, Disarmed;
      handed, reading, adding, expired, alarmed, batchNow := {}, {}, NotAdding, [], 0, 0;
    }

    // add_timer on another thread, up to the hand-over; p is the address the allocator picks.
    method HandOver(p: Addr, when: int, interval: nat, repeat: bool)
      requires p !in heap
      modifies this
      ensures Next(old(Abs()), New(p, when, interval, repeat, false), Abs())
      ensures p in heap && heap[p] == Timer(when, interval, repeat, old(lastId) + 1)
      ensures reading == old(reading) + {TimerId(p, old(lastId) + 1)}
    {
      lastId := lastId + 1;
      heap := heap[p := Timer(when, interval, repeat, lastId)];
      handed := handed + {p};
      reading := reading + {TimerId(p, lastId)};
    }

    // The rest of it: the id of whatever is at the address, None if nothing is.
    method ReadBack(id: TimerId) returns (r: Option<TimerId>)
      requires id in reading
      modifies this`reading
      ensures Next(old(Abs()), ReadId(id, false), Abs())
      ensures r == Some(id) <==> HoldsTimer(Abs(), id)
      ensures r.None? <==> id.ptr !in heap
    {
      r := if id.ptr in heap then Some(TimerId(id.ptr, heap[id.ptr].id)) else None;
      reading := reading - {id};
    }

    // add_timer on the reactor thread, where the insertion runs at once.
    method AddTimer(p: Addr, when: int, interval: nat, repeat: bool, clock: int)
      returns (id: TimerId, ghost s1: State, ghost s2: State)
      requires Inv(Abs()) && adding == NotAdding && p !in heap
      modifies this
      ensures Next(old(Abs()), New(p, when, interval, repeat, true), s1)
      ensures Next(s1, Add(p, clock), s2) && Next(s2, ReadId(id, true), Abs())
      ensures id == TimerId(p, old(lastId) + 1) && HoldsTimer(Abs(), id) && adding == NotAdding
      ensures p in heap && heap[p] == Timer(when, interval, repeat, id.id)
      ensures Entry(when, p) in timers && id in active
      ensures unchanged(`calling) && unchanged(`expired) && unchanged(`alarmed) && unchanged(`batchNow)
    {
      CreateHere(p, when, interval, repeat);
      s1 := Abs();
      NewKeepsInv(old(Abs()), New(p, when, interval, repeat, true), s1);
      hide Inv, Next;
      AddTimerInReactor(p, clock);
      s2 := Abs();
      id := TimerId(p, heap[p].id);
      ReadStep(s2, id);
      adding := NotAdding;
    }

    method CreateHere(p: Addr, when: int, interval: nat, repeat: bool)
      requires adding == NotAdding && p !in heap
      modifies this
      ensures Next(old(Abs()), New(p, when, interval, repeat, true), Abs())
      ensures lastId == old(lastId) + 1 && p in handed && adding == Adding(TimerId(p, lastId))
      ensures p in heap && heap[p] == Timer(when, interval, repeat, lastId)
      ensures unchanged(`calling) && unchanged(`expired) && unchanged(`alarmed) && unchanged(`batchNow)
    {
      lastId := lastId + 1;
      heap := heap[p := Timer(when, interval, repeat, lastId)];
      handed := handed + {p};
      adding := Adding(TimerId(p, lastId));
    }

    // m_timers_set.begin()
    method Begin() returns (e: Entry)
      requires timers != {}
      ensures IsEarliest(timers, e)
    {
      e :| e in timers;
      var rest := timers - {e};
      while rest != {}
        invariant rest <= timers && e in timers
        invariant forall g :: g in timers && g !in rest ==> e == g || Before(e, g)
        decreases rest
      {
        var f :| f in rest;
        rest := rest - {f};
        if Before(f, e) { e := f; }
      }
    }

    method Insert(p: Addr) returns (earliestChanged: bool)
      requires p in heap
      // the two insertions the code asserts to be new
      requires Entry(heap[p].expire, p) !in timers && IdAt(heap, p) !in active
      modifies this`timers, this`active
      ensures timers == old(timers) + {Entry(heap[p].expire, p)}
      ensures active == old(active) + {IdAt(heap, p)}
      ensures earliestChanged <==> forall e :: e in old(timers) ==> heap[p].expire < e.time
    {
      earliestChanged := false;
      var when := heap[p].expire;
      if timers == {} {
        earliestChanged := true;
      } else {
        var first := Begin();
        if when < first.time { earliestChanged := true; }
      }
      timers := timers + {Entry(when, p)};
      active := active + {IdAt(heap, p)};
    }

    method AddTimerInReactor(p: Addr, clock: int)
      requires Inv(Abs()) && p in handed && (adding.Adding? ==> adding.timerId.ptr == p)
      modifies this`timers, this`active, this`fd, this`handed
      ensures Next(old(Abs()), Add(p, clock), Abs()) && handed == old(handed) - {p}
      ensures p in heap && Entry(heap[p].expire, p) in timers && IdAt(heap, p) in active
    {
      hide FdIsSet, IdsAreUnique, BatchIsSound, FdAfterReset, HeapAfter, TimersAfter, ActiveAfter, IsBatch, IsLive;
      var earliestChanged := Insert(p);
      if earliestChanged {
        fd := ArmFor(heap[p].expire, clock);
      }
      handed := handed - {p};
    }

    method CancelInReactor(id: TimerId)
      requires Inv(Abs()) && adding == NotAdding
      modifies this
      ensures Next(old(Abs()), Cancel(id), Abs())
    {
      if id in active {
        // the erased entry is present, as the code asserts
        assert Entry(heap[id.ptr].expire, id.ptr) in timers;
        timers := timers - {Entry(heap[id.ptr].expire, id.ptr)};
        heap := heap - {id.ptr};
        active := active - {id};
      } else if calling {
        canceling := canceling + {id};
      }
    }

    method RetrieveExpiredTimers(now: int) returns (batch: seq<Entry>)
      requires IndexesAgree(Abs())
      modifies this`timers, this`active
      ensures IsBatch(old(timers), now, batch)
      ensures timers == set e | e in old(timers) && now < e.time
      ensures active == set a | a in old(active) && !(a.ptr in heap && heap[a.ptr].expire <= now)
    {
      batch := [];
      while timers != {}
        invariant timers <= old(timers) && active == old(active)
        invariant Ascending(batch)
        invariant forall e :: e in batch <==> e in old(timers) && e !in timers
        invariant forall e :: e in batch ==> e.time <= now
        invariant forall e, f :: e in batch && f in timers ==> Before(e, f)
        decreases timers
      {
        var first := Begin();
        if now < first.time { break; }
        batch := batch + [first];
        timers := timers - {first};
      }
      for i := 0 to |batch|
        invariant timers == set e | e in old(timers) && now < e.time
        invariant active == set a | a in old(active) && !(exists k :: 0 <= k < i && batch[k].ptr == a.ptr)
      {
        assert batch[i] in batch;
        active := active - {IdAt(heap, batch[i].ptr)};
      }
      forall a | a in old(active)
        ensures (exists k :: 0 <= k < |batch| && batch[k].ptr == a.ptr) <==> heap[a.ptr].expire <= now
      {
        if heap[a.ptr].expire <= now {
          assert Entry(heap[a.ptr].expire, a.ptr) in batch;
        }
      }
    }

    // One turn of reset's loop: re-arm the timer at p or delete it.
    method RestartOrDelete(p: Addr, now: int)
      requires p in heap && Entry(Restarted(heap[p], now).expire, p) !in timers && IdAt(heap, p) !in active
      modifies this`heap, this`timers, this`active
      ensures var keep := old(heap)[p].repeat && IdAt(old(heap), p) !in canceling;
              var again := Restarted(old(heap)[p], now);
              && heap == (if keep then old(heap)[p := again] else old(heap) - {p})
              && timers == old(timers) + (if keep then {Entry(again.expire, p)} else {})
              && active == old(active) + (if keep then {IdAt(old(heap), p)} else {})
    {
      if heap[p].repeat && IdAt(heap, p) !in canceling {
        heap := heap[p := Restarted(heap[p], now)];
        var _ := Insert(p);
      } else {
        heap := heap - {p};
      }
    }

    // reset, called once the batch has been called back; before is the state at that point.
    method Reset(batch: seq<Entry>, now: int, clock: int, ghost before: State)
      requires Inv(before) && before.calling && before.alarmed == |batch| == |before.expired|
      requires !calling && Abs().(calling := true) == before && batch == expired && now == batchNow && adding == NotAdding
      modifies this
      ensures Next(before, EndBatch(clock), Abs())
    {
      hide Inv;
      BatchIsLive(before);
      assert IsLive(before, batch[..0]) && HeapAfter(before, batch[..0]) == heap;
      assert TimersAfter(before, batch[..0]) == timers && ActiveAfter(before, batch[..0]) == active;
      RestartOrDeleteAll(batch, now, before);
      hide HeapAfter, TimersAfter, ActiveAfter;
      if timers != {} {
        var first := Begin();
        if first.time > 0 {
          fd := ArmFor(first.time, clock);
        }
      }
      expired, alarmed := [], 0;
    }

    method RestartOrDeleteAll(batch: seq<Entry>, now: int, ghost before: State)
      requires Inv(before) && IsLive(before, batch) && before.expired == batch && before.batchNow == now
      requires IsLive(before, batch[..0]) && heap == HeapAfter(before, batch[..0])
      requires timers == TimersAfter(before, batch[..0]) && active == ActiveAfter(before, batch[..0])
      requires canceling == before.canceling
      modifies this`heap, this`timers, this`active
      ensures heap == HeapAfter(before, batch) && timers == TimersAfter(before, batch)
      ensures active == ActiveAfter(before, batch)
    {
      hide HeapAfter, TimersAfter, ActiveAfter, Inv, Restarted;
      for i := 0 to |batch|
        invariant IsLive(before, batch[..i]) && heap == HeapAfter(before, batch[..i])
        invariant timers == TimersAfter(before, batch[..i]) && active == ActiveAfter(before, batch[..i])
      {
        ResetOne(before, i);
        RestartOrDelete(batch[i].ptr, now);
      }
      assert batch[..|batch|] == batch;
    }

    // A cancel, a queued insertion or a step of another thread; an impossible one does not happen.
    method PerformStep(step: Step) returns (did: bool)
      requires Inv(Abs()) && adding == NotAdding && IsSingleStep(step)
      modifies this
      ensures did ==> Next(old(Abs()), step, Abs())
      ensures !did ==> Abs() == old(Abs())
      ensures unchanged(`calling) && unchanged(`expired) && unchanged(`alarmed) && unchanged(`batchNow)
      ensures unchanged(`adding)
    {
      hide Inv, FdAfterReset;
      match step {
        case New(p, when, interval, repeat, _) =>
          did := p !in heap;
          if did { HandOver(p, when, interval, repeat); }
        case ReadId(id, _) =>
          did := id in reading;
          if did { var _ := ReadBack(id); }
        case Add(p, clock) =>
          did := p in handed;
          if did { AddTimerInReactor(p, clock); }
        case Cancel(id) =>
          did := true;
          CancelInReactor(id);
      }
    }

    // One thing that happens while a callback runs.
    method Perform(request: Request, ghost steps0: seq<Step>, ghost states0: seq<State>)
      returns (ghost steps: seq<Step>, ghost states: seq<State>)
      requires Inv(Abs()) && adding == NotAdding && IsRequest(request)
      requires IsRun(steps0, states0) && |states0| == |steps0| + 1 && states0[|steps0|] == Abs()
      modifies this
      ensures IsRun(steps, states) && |states| == |steps| + 1 && states[|steps|] == Abs()
      ensures steps0 <= steps && states0 <= states
      ensures Inv(Abs()) && adding == NotAdding
      ensures unchanged(`calling) && unchanged(`expired) && unchanged(`alarmed) && unchanged(`batchNow)
    {
      hide Inv, Next, IsRun, HoldsTimer;
      steps, states := steps0, states0;
      if request.AddHere? {
        if request.ptr in heap { return; }
        var create := New(request.ptr, request.when, request.interval, request.repeat, true);
        var id;
        ghost var s1, s2;
        id, s1, s2 := AddTimer(request.ptr, request.when, request.interval, request.repeat, request.clock);
        NextKeepsInv(states[|steps|], create, s1);
        ExtendRun(steps, states, create, s1);
        steps, states := steps + [create], states + [s1];
        NextKeepsInv(s1, Add(request.ptr, request.clock), s2);
        ExtendRun(steps, states, Add(request.ptr, request.clock), s2);
        steps, states := steps + [Add(request.ptr, request.clock)], states + [s2];
        NextKeepsInv(s2, ReadId(id, true), Abs());
        ExtendRun(steps, states, ReadId(id, true), Abs());
        steps, states := steps + [ReadId(id, true)], states + [Abs()];
      } else {
        var did := PerformStep(request.step);
        if did {
          NextKeepsInv(states[|steps|], request.step, Abs());
          ExtendRun(steps, states, request.step, Abs());
          steps, states := steps + [request.step], states + [Abs()];
        }
      }
    }

    method RunCallback(requests: seq<Request>, ghost steps0: seq<Step>, ghost states0: seq<State>)
      returns (ghost steps: seq<Step>, ghost states: seq<State>)
      requires Inv(Abs()) && adding == NotAdding && forall k :: 0 <= k < |requests| ==> IsRequest(requests[k])
      requires IsRun(steps0, states0) && |states0| == |steps0| + 1 && states0[|steps0|] == Abs()
      modifies this
      ensures IsRun(steps, states) && |states| == |steps| + 1 && states[|steps|] == Abs()
      ensures steps0 <= steps && states0 <= states
      ensures Inv(Abs()) && adding == NotAdding
      ensures unchanged(`calling) && unchanged(`expired) && unchanged(`alarmed) && unchanged(`batchNow)
    {
      hide Inv, Next, IsRun;
      steps, states := steps0, states0;
      for k := 0 to |requests|
        invariant IsRun(steps, states) && |states| == |steps| + 1 && states[|steps|] == Abs()
        invariant steps0 <= steps && states0 <= states
        invariant Inv(Abs()) && adding == NotAdding
        invariant unchanged(`calling) && unchanged(`expired) && unchanged(`alarmed) && unchanged(`batchNow)
      {
        steps, states := Perform(requests[k], steps, states);
      }
    }

    // handle_timerfd_read: the i-th callback makes the requests callbacks[i].
    method HandleTimerfdRead(now: int, drained: bool, callbacks: seq<seq<Request>>, clock: int)
      returns (ghost steps: seq<Step>, ghost states: seq<State>)
      requires Inv(Abs()) && !calling && adding == NotAdding && now > 0
      requires forall i :: 0 <= i < |callbacks| ==> forall k :: 0 <= k < |callbacks[i]| ==> IsRequest(callbacks[i][k])
      modifies this
      ensures IsRun(steps, states) && states[0] == old(Abs()) && states[|steps|] == Abs()
      ensures steps != [] && steps[0].BeginBatch? && steps[0].now == now && steps[|steps| - 1] == EndBatch(clock)
      ensures Inv(Abs()) && !calling
    {
      var batch := BeginCallbacks(now, drained);
      hide Inv, Next, IsRun;
      steps, states := [BeginBatch(now, batch, drained)], [old(Abs()), Abs()];
      OneStepRun(old(Abs()), BeginBatch(now, batch, drained), Abs());
      NextKeepsInv(old(Abs()), BeginBatch(now, batch, drained), Abs());
      for i := 0 to |batch|
        invariant IsRun(steps, states) && |states| == |steps| + 1 && states[|steps|] == Abs()
        invariant [BeginBatch(now, batch, drained)] <= steps && [old(Abs())] <= states
        invariant Inv(Abs()) && calling && adding == NotAdding && expired == batch && alarmed == i && batchNow == now
      {
        alarmed := alarmed + 1;
        AlarmStep(states[|steps|], Abs());
        NextKeepsInv(states[|steps|], Alarm, Abs());
        ExtendRun(steps, states, Alarm, Abs());
        steps, states := steps + [Alarm], states + [Abs()];
        var requests := if i < |callbacks| then callbacks[i] else [];
        steps, states := RunCallback(requests, steps, states);
      }
      calling := false;
      Reset(batch, now, clock, states[|steps|]);
      NextKeepsInv(states[|steps|], EndBatch(clock), Abs());
      EndsCalling(states[|steps|], EndBatch(clock), Abs());
      ExtendRun(steps, states, EndBatch(clock), Abs());
      steps, states := steps + [EndBatch(clock)], states + [Abs()];
    }

    // handle_timerfd_read up to its loop over the batch.
    method BeginCallbacks(now: int, drained: bool) returns (batch: seq<Entry>)
      requires Inv(Abs()) && !calling && adding == NotAdding && now > 0
      modifies this
      ensures Next(old(Abs()), BeginBatch(now, batch, drained), Abs()) && adding == NotAdding
    {
      hide HasOnePlace, IdsAreUnique, FdIsSet, BatchIsSound, FdAfterReset, HeapAfter, TimersAfter, ActiveAfter, IsLive;
      batch := RetrieveExpiredTimers(now);
      hide IndexesAgree;
      fd := if drained then Disarmed else fd;
      calling, canceling := true, {};
      expired, alarmed, batchNow := batch, 0, now;
    }
  }

  // What can happen while a callback runs: it adds a timer, or a single step is taken.
  datatype Request =
    | AddHere(ptr: Addr, when: int, interval: nat, repeat: bool, clock: int)
    | Single(step: Step)

  predicate IsSingleStep(step: Step) {
    step.Add? || step.Cancel? || (step.New? && !step.onReactor) || (step.ReadId? && !step.onReactor)
  }

  predicate IsRequest(request: Request) {
    request.Single? ==> IsSingleStep(request.step)
  }

  lemma ReadStep(s: State, id: TimerId)
    requires s.adding == Adding(id) && id.ptr !in s.handed
    ensures Next(s, ReadId(id, true), s.(adding := NotAdding))
  {
  }

  lemma OneStepRun(s: State, step: Step, s': State)
    requires Next(s, step, s')
    ensures IsRun([step], [s, s'])
  {
    hide Next;
  }

  lemma AlarmStep(s: State, s': State)
    requires s.calling && s.adding.NotAdding? && s.alarmed < |s.expired| && s' == s.(alarmed := s.alarmed + 1)
    ensures Next(s, Alarm, s')
  {
  }

  lemma EndsCalling(s: State, step: Step, s': State)
    requires step.EndBatch? && Next(s, step, s')
    ensures !s'.calling
  {
    hide FdAfterReset;
  }

  lemma BatchIsLive(s: State)
    requires Inv(s)
    ensures IsLive(s, s.expired)
  {
    hide IndexesAgree, FdIsSet, IdsAreUnique;
    forall i | 0 <= i < |s.expired| ensures s.expired[i].ptr in s.heap {
      assert s.expired[i].ptr in Pointers(s.expired);
    }
  }

  predicate Keeps(s: State, p: Addr)
    requires p in s.heap
  {
    s.heap[p].repeat && IdAt(s.heap, p) !in s.canceling
  }

  lemma PrefixesGrow(s: State, i: nat)
    requires BatchIsSound(s) && i < |s.expired| && IsLive(s, s.expired)
    ensures IsLive(s, s.expired[..i]) && IsLive(s, s.expired[..i + 1])
    ensures var p, done, next := s.expired[i].ptr, s.expired[..i], s.expired[..i + 1];
            && p !in Pointers(done) && p !in Kept(s, done)
            && Pointers(next) == Pointers(done) + {p}
            && Kept(s, next) == Kept(s, done) + if Keeps(s, p) then {p} else {}
  {
    var p, done, next := s.expired[i].ptr, s.expired[..i], s.expired[..i + 1];
    assert next == done + [s.expired[i]];
    forall q | q in Pointers(next) ensures q in Pointers(done) + {p} {}
    forall q | q in Pointers(done) + {p} ensures q in Pointers(next) {
      if q != p {
        var k :| 0 <= k < |done| && done[k].ptr == q;
        assert next[k].ptr == q;
      } else {
        assert next[i].ptr == p;
      }
    }
    forall q | q in Kept(s, done) ensures q in Kept(s, next) {
      var k :| 0 <= k < |done| && done[k].ptr == q && s.heap[q].repeat && IdAt(s.heap, q) !in s.canceling;
      assert next[k].ptr == q;
    }
    if Keeps(s, p) { assert next[i].ptr == p; }
  }

  lemma HeapGrows(s: State, i: nat)
    requires BatchIsSound(s) && i < |s.expired| && IsLive(s, s.expired)
    requires IsLive(s, s.expired[..i]) && IsLive(s, s.expired[..i + 1])
    ensures var p, done, next := s.expired[i].ptr, s.expired[..i], s.expired[..i + 1];
            var heap := HeapAfter(s, done);
            && p in heap && heap[p] == s.heap[p]
            && HeapAfter(s, next) == if Keeps(s, p) then heap[p := Restarted(heap[p], s.batchNow)] else heap - {p}
  {
    PrefixesGrow(s, i);
    hide Pointers, Kept, BatchIsSound;
  }

  // The queue holds nothing at the address of a batch entry not yet reset.
  lemma NotYetQueued(s: State, i: nat)
    requires Inv(s) && i < |s.expired| && IsLive(s, s.expired) && IsLive(s, s.expired[..i])
    ensures forall e :: e in TimersAfter(s, s.expired[..i]) ==> e.ptr != s.expired[i].ptr
    ensures forall a :: a in ActiveAfter(s, s.expired[..i]) ==> a.ptr != s.expired[i].ptr
  {
    var p := s.expired[i].ptr;
    assert p in Pointers(s.expired);
    assert !IsQueued(s, p);
    PrefixesGrow(s, i);
    hide Pointers, Kept, BatchIsSound, FdIsSet, IdsAreUnique, HasOnePlace;
  }

  lemma TimersGrow(s: State, i: nat)
    requires BatchIsSound(s) && i < |s.expired| && IsLive(s, s.expired)
    requires IsLive(s, s.expired[..i]) && IsLive(s, s.expired[..i + 1])
    ensures var p, done, next := s.expired[i].ptr, s.expired[..i], s.expired[..i + 1];
            TimersAfter(s, next) == TimersAfter(s, done) + (if Keeps(s, p) then {Entry(s.batchNow + s.heap[p].interval, p)} else {})
  {
    PrefixesGrow(s, i);
    hide Pointers, Kept, BatchIsSound, Keeps;
  }

  lemma ActiveGrows(s: State, i: nat)
    requires BatchIsSound(s) && i < |s.expired| && IsLive(s, s.expired)
    requires IsLive(s, s.expired[..i]) && IsLive(s, s.expired[..i + 1])
    ensures var p, done, next := s.expired[i].ptr, s.expired[..i], s.expired[..i + 1];
            ActiveAfter(s, next) == ActiveAfter(s, done) + (if Keeps(s, p) then {IdAt(s.heap, p)} else {})
  {
    PrefixesGrow(s, i);
    hide Pointers, Kept, BatchIsSound, Keeps;
  }

  lemma SameId(s: State, heap: map<Addr, Timer>, p: Addr)
    requires p in s.heap && p in heap && heap[p] == s.heap[p]
    ensures IdAt(heap, p) == IdAt(s.heap, p) == TimerId(p, s.heap[p].id)
  {
  }

  // One turn of reset's loop, on the sets.
  lemma ResetOne(s: State, i: nat)
    requires Inv(s) && i < |s.expired| && IsLive(s, s.expired)
    ensures IsLive(s, s.expired[..i]) && IsLive(s, s.expired[..i + 1])
    ensures var p, done, next := s.expired[i].ptr, s.expired[..i], s.expired[..i + 1];
            var heap, again := HeapAfter(s, done), Restarted(s.heap[p], s.batchNow);
            && p in heap && heap[p] == s.heap[p]
            && Entry(again.expire, p) !in TimersAfter(s, done) && IdAt(heap, p) !in ActiveAfter(s, done)
            && HeapAfter(s, next) == (if Keeps(s, p) then heap[p := again] else heap - {p})
            && TimersAfter(s, next) == TimersAfter(s, done) + (if Keeps(s, p) then {Entry(again.expire, p)} else {})
            && ActiveAfter(s, next) == ActiveAfter(s, done) + (if Keeps(s, p) then {IdAt(heap, p)} else {})
  {
    hide IndexesAgree, HasOnePlace, IdsAreUnique, FdIsSet;
    assert BatchIsSound(s);
    var p := s.expired[i].ptr;
    assert Keeps(s, p) ==> Restarted(s.heap[p], s.batchNow).expire == s.batchNow + s.heap[p].interval;
    hide *;
    PrefixesGrow(s, i);
    HeapGrows(s, i);
    NotYetQueued(s, i);
    TimersGrow(s, i);
    ActiveGrows(s, i);
    SameId(s, HeapAfter(s, s.expired[..i]), p);
  }
}
