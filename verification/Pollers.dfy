/** The two pollers, flute/net/poller/PollPoller.cc and EPollPoller.cc, and the channel fields they
    share, flute/net/Channel.h. Both follow the same registry of channels, and the registry says
    exactly when they differ. */
module Pollers {

  type Events = bv16
  const NONE_EVENT: Events := 0
  const READ_EVENT: Events := 3   // POLLIN | POLLPRI
  const WRITE_EVENT: Events := 4  // POLLOUT

  datatype Op = Update(fd: nat, events: Events) | Remove(fd: nat)

  // ---------- The registry ----------

  // What the updates of a registered channel amount to.
  datatype Phase =
    | Busy(events: Events)   // the last update had interest
    | Fresh                  // registered by an update without interest, not updated since
    | Idle                   // silenced
    | Lingering              // silenced once more while idle

  type Registry = map<nat, Phase>

  function NextPhase(m: Registry, fd: nat, ev: Events): Phase {
    if ev != NONE_EVENT then Busy(ev)
    else if fd !in m then Fresh
    else if m[fd].Idle? then Lingering
    else Idle
  }

  function Apply(m: Registry, op: Op): Registry {
    match op
    case Update(fd, ev) => m[fd := NextPhase(m, fd, ev)]
    case Remove(fd) => m - {fd}
  }

  // Any update may be made. A channel is removed without interest, and not right after a
  // registration without interest (see RemovalAssertion).
  predicate IsAllowed(m: Registry, op: Op) {
    op.Remove? ==> op.fd in m && (m[op.fd].Idle? || m[op.fd].Lingering?)
  }

  // ---------- poll(2): a dense vector and the channels' back-indices ----------

  datatype PollFd = PollFd(fd: int, events: Events)

  datatype PollState = PollState(pollfds: seq<PollFd>, index: map<nat, int>)

  // -fd - 1 marks an entry poll(2) is to ignore.
  function Negated(fd: int): int {
    -fd - 1
  }

  function Decoded(fd: int): nat {
    if fd < 0 then Negated(fd) else fd
  }

  function EntryFor(fd: nat, ev: Events): PollFd {
    PollFd(if ev == NONE_EVENT then Negated(fd) else fd, ev)
  }

  function PollUpdate(s: PollState, fd: nat, ev: Events): PollState
    requires fd in s.index ==> 0 <= s.index[fd] < |s.pollfds|
  {
    if fd !in s.index then
      // not negated, whatever the interest
      PollState(s.pollfds + [PollFd(fd, ev)], s.index[fd := |s.pollfds|])
    else
      s.(pollfds := s.pollfds[s.index[fd] := EntryFor(fd, ev)])
  }

  function PollRemove(s: PollState, fd: nat): PollState
    requires fd in s.index && 0 <= s.index[fd] < |s.pollfds|
  {
    var i, last := s.index[fd], |s.pollfds| - 1;
    if i == last then
      PollState(s.pollfds[..last], s.index - {fd})
    else
      PollState(s.pollfds[i := s.pollfds[last]][..last], (s.index - {fd})[Decoded(s.pollfds[last].fd) := i])
  }

  // Back-indices and entries point at each other.
  ghost predicate PollInv(s: PollState) {
    && (forall fd :: fd in s.index ==> 0 <= s.index[fd] < |s.pollfds| && Decoded(s.pollfds[s.index[fd]].fd) == fd)
    && (forall i :: 0 <= i < |s.pollfds| ==>
          Decoded(s.pollfds[i].fd) in s.index && s.index[Decoded(s.pollfds[i].fd)] == i)
  }

  // poll(2) has this descriptor with this mask.
  ghost predicate PollHolds(s: PollState, fd: nat, ev: Events) {
    exists i :: 0 <= i < |s.pollfds| && s.pollfds[i] == PollFd(fd, ev)
  }

  // The entry of a channel in a given phase.
  function PollEntry(fd: nat, phase: Phase): PollFd {
    match phase
    case Busy(ev) => PollFd(fd, ev)
    case Fresh => PollFd(fd, NONE_EVENT)
    case _ => PollFd(Negated(fd), NONE_EVENT)
  }

  predicate PollMatchesAt(s: PollState, m: Registry, g: nat) {
    && (g in s.index <==> g in m)
    && (g in m ==> 0 <= s.index[g] < |s.pollfds| && s.pollfds[s.index[g]] == PollEntry(g, m[g]))
  }

  ghost predicate PollMatches(s: PollState, m: Registry) {
    PollInv(s) && forall g: nat :: PollMatchesAt(s, m, g)
  }

  lemma PollUpdateKeepsInv(s: PollState, fd: nat, ev: Events)
    requires PollInv(s)
    ensures PollInv(PollUpdate(s, fd, ev))
  {
    var s' := PollUpdate(s, fd, ev);
    forall i | 0 <= i < |s.pollfds| && (fd in s.index ==> i != s.index[fd])
      ensures s'.pollfds[i] == s.pollfds[i] && Decoded(s.pollfds[i].fd) != fd
    {
    }
  }

  lemma PollUpdateAt(s: PollState, m: Registry, fd: nat, ev: Events, g: nat)
    requires PollInv(s) && PollMatchesAt(s, m, fd) && PollMatchesAt(s, m, g)
    ensures PollMatchesAt(PollUpdate(s, fd, ev), Apply(m, Update(fd, ev)), g)
  {
  }

  lemma PollUpdateRefines(s: PollState, m: Registry, fd: nat, ev: Events)
    requires PollMatches(s, m)
    ensures (fd in s.index ==> 0 <= s.index[fd] < |s.pollfds|) &&
            PollMatches(PollUpdate(s, fd, ev), Apply(m, Update(fd, ev)))
  {
    assert fd in s.index ==> 0 <= s.index[fd] < |s.pollfds|;
    hide PollInv, PollUpdate, PollMatchesAt, Apply;
    PollUpdateKeepsInv(s, fd, ev);
    forall g: nat ensures PollMatchesAt(PollUpdate(s, fd, ev), Apply(m, Update(fd, ev)), g) {
      PollUpdateAt(s, m, fd, ev, g);
    }
  }

  lemma PollRemoveKeepsInv(s: PollState, fd: nat)
    requires PollInv(s) && fd in s.index
    ensures PollInv(PollRemove(s, fd))
  {
    var s' := PollRemove(s, fd);
    var i, last := s.index[fd], |s.pollfds| - 1;
    forall k | 0 <= k < |s'.pollfds|
      ensures s'.pollfds[k] == s.pollfds[if k == i then last else k]
      ensures Decoded(s'.pollfds[k].fd) in s'.index && s'.index[Decoded(s'.pollfds[k].fd)] == k
    {
    }
  }

  lemma PollRemoveAt(s: PollState, m: Registry, fd: nat, g: nat)
    requires PollInv(s) && fd in s.index && PollMatchesAt(s, m, g)
    ensures PollMatchesAt(PollRemove(s, fd), Apply(m, Remove(fd)), g)
  {
  }

  /** Swap-remove keeps every other channel's back-index true and its entry unchanged. */
  lemma PollRemoveRefines(s: PollState, m: Registry, fd: nat)
    requires PollMatches(s, m) && fd in s.index
    ensures 0 <= s.index[fd] < |s.pollfds| && PollMatches(PollRemove(s, fd), Apply(m, Remove(fd)))
  {
    assert 0 <= s.index[fd] < |s.pollfds|;
    hide PollInv, PollRemove, PollMatchesAt, Apply;
    PollRemoveKeepsInv(s, fd);
    forall g: nat ensures PollMatchesAt(PollRemove(s, fd), Apply(m, Remove(fd)), g) {
      PollRemoveAt(s, m, fd, g);
    }
  }

  /** poll(2) has the descriptors with interest, and those just registered without. */
  lemma PollHoldsPhase(s: PollState, m: Registry, fd: nat, ev: Events)
    requires PollMatches(s, m)
    ensures PollHolds(s, fd, ev) <==> fd in m && (m[fd] == Busy(ev) || (m[fd].Fresh? && ev == NONE_EVENT))
  {
    assert PollMatchesAt(s, m, fd);
    if PollHolds(s, fd, ev) {
      var i :| 0 <= i < |s.pollfds| && s.pollfds[i] == PollFd(fd, ev);
      assert Decoded(s.pollfds[i].fd) == fd;
    }
  }

  // ---------- epoll(4): a three-valued index and the kernel's set ----------

  const K_NEW := -1
  const K_ADDED := 1
  const K_DELETED := 2

  datatype EPollState = EPollState(index: map<nat, int>, kernel: map<nat, Events>)

  datatype Ctl = Add | Mod | Del

  // epoll_ctl fails when adding a present descriptor or changing an absent one.
  predicate CtlSucceeds(kernel: map<nat, Events>, ctl: Ctl, fd: nat) {
    ctl.Add? <==> fd !in kernel
  }

  function CtlEffect(kernel: map<nat, Events>, ctl: Ctl, fd: nat, ev: Events): map<nat, Events> {
    if ctl.Del? then kernel - {fd} else kernel[fd := ev]
  }

  // The epoll_ctl calls an operation makes: none or one.
  function CtlOf(s: EPollState, op: Op): seq<Ctl> {
    match op
    case Update(fd, ev) =>
      if fd !in s.index || s.index[fd] == K_DELETED then [Add]
      else if ev == NONE_EVENT then [Del] else [Mod]
    case Remove(fd) => if fd in s.index && s.index[fd] == K_ADDED then [Del] else []
  }

  function EPollStep(s: EPollState, op: Op): EPollState {
    var kernel := if CtlOf(s, op) == [] then s.kernel
                  else CtlEffect(s.kernel, CtlOf(s, op)[0], op.fd, if op.Update? then op.events else NONE_EVENT);
    match op
    case Update(fd, ev) => EPollState(s.index[fd := if CtlOf(s, op) == [Del] then K_DELETED else K_ADDED], kernel)
    case Remove(fd) => EPollState(s.index - {fd}, kernel)
  }

  // The kernel set has this descriptor with this mask.
  predicate EPollHolds(s: EPollState, fd: nat, ev: Events) {
    fd in s.kernel && s.kernel[fd] == ev
  }

  predicate EPollMatchesAt(s: EPollState, m: Registry, g: nat) {
    && (g in s.index <==> g in m)
    && (g in m ==> s.index[g] == if m[g].Idle? then K_DELETED else K_ADDED)
    && (g in s.kernel <==> g in m && !m[g].Idle?)
    && (g in s.kernel ==> s.kernel[g] == if m[g].Busy? then m[g].events else NONE_EVENT)
  }

  ghost predicate EPollMatches(s: EPollState, m: Registry) {
    forall g: nat :: EPollMatchesAt(s, m, g)
  }

  lemma EPollStepAt(s: EPollState, m: Registry, op: Op, g: nat)
    requires EPollMatchesAt(s, m, op.fd) && EPollMatchesAt(s, m, g)
    ensures EPollMatchesAt(EPollStep(s, op), Apply(m, op), g)
    ensures op.Update? || op.fd in m ==> forall c :: c in CtlOf(s, op) ==> CtlSucceeds(s.kernel, c, op.fd)
  {
  }

  /** One operation: its epoll_ctl calls succeed, ADD only for absent descriptors, MOD and DEL only for present ones. */
  lemma EPollStepRefines(s: EPollState, m: Registry, op: Op)
    requires EPollMatches(s, m) && IsAllowed(m, op)
    ensures forall c :: c in CtlOf(s, op) ==> CtlSucceeds(s.kernel, c, op.fd)
    ensures EPollMatches(EPollStep(s, op), Apply(m, op))
  {
    hide EPollMatchesAt, EPollStep, Apply, CtlOf, CtlSucceeds;
    EPollStepAt(s, m, op, op.fd);
    forall g: nat ensures EPollMatchesAt(EPollStep(s, op), Apply(m, op), g) {
      EPollStepAt(s, m, op, g);
    }
  }

  /** The kernel set has every registered descriptor that is not idle. */
  lemma EPollHoldsPhase(s: EPollState, m: Registry, fd: nat, ev: Events)
    requires EPollMatches(s, m)
    ensures EPollHolds(s, fd, ev) <==>
              fd in m && (m[fd] == Busy(ev) || ((m[fd].Fresh? || m[fd].Lingering?) && ev == NONE_EVENT))
  {
    assert EPollMatchesAt(s, m, fd);
  }

  // ---------- Both, over whole runs ----------

  // The assertions in PollPoller's update_channel and remove_channel about its vector.
  predicate PollAsserts(s: PollState, op: Op) {
    var i := if op.fd in s.index then s.index[op.fd] else 0;
    match op
    case Update(fd, _) =>
      fd in s.index ==> 0 <= i < |s.pollfds| && (s.pollfds[i].fd == fd || s.pollfds[i].fd == Negated(fd))
    case Remove(fd) =>
      fd in s.index && 0 <= i < |s.pollfds| && s.pollfds[i] == PollFd(Negated(fd), NONE_EVENT)
  }

  // A failed assertion is modelled as a step that changes nothing.
  function PollStep(s: PollState, op: Op): PollState {
    if !PollAsserts(s, op) then s
    else match op
      case Update(fd, ev) => PollUpdate(s, fd, ev)
      case Remove(fd) => PollRemove(s, fd)
  }

  // The two pollers, given the same allowed operations in the same order; ms is the registry.
  ghost predicate IsRun(ops: seq<Op>, ms: seq<Registry>, ps: seq<PollState>, es: seq<EPollState>) {
    && |ms| == |ps| == |es| == |ops| + 1
    && ms[0] == map[] && ps[0] == PollState([], map[]) && es[0] == EPollState(map[], map[])
    && forall k :: 0 <= k < |ops| ==>
         && IsAllowed(ms[k], ops[k]) && ms[k + 1] == Apply(ms[k], ops[k])
         && ps[k + 1] == PollStep(ps[k], ops[k])
         && es[k + 1] == EPollStep(es[k], ops[k])
  }

  lemma AllowedAsserts(p: PollState, m: Registry, op: Op)
    requires PollMatches(p, m) && IsAllowed(m, op)
    ensures PollAsserts(p, op) && (op.Remove? ==> op.fd in p.index)
  {
    assert PollMatchesAt(p, m, op.fd);
    hide PollInv;
  }

  lemma StepMatches(m: Registry, p: PollState, e: EPollState, op: Op)
    requires PollMatches(p, m) && EPollMatches(e, m) && IsAllowed(m, op)
    ensures PollAsserts(p, op)
    ensures forall c :: c in CtlOf(e, op) ==> CtlSucceeds(e.kernel, c, op.fd)
    ensures PollMatches(PollStep(p, op), Apply(m, op)) && EPollMatches(EPollStep(e, op), Apply(m, op))
  {
    hide PollMatches, EPollMatches, PollAsserts, PollUpdate, PollRemove, EPollStep, CtlOf, Apply;
    AllowedAsserts(p, m, op);
    EPollStepRefines(e, m, op);
    match op
    case Update(fd, ev) => PollUpdateRefines(p, m, fd, ev);
    case Remove(fd) => PollRemoveRefines(p, m, fd);
  }

  lemma {:induction false} RunMatches(ops: seq<Op>, ms: seq<Registry>, ps: seq<PollState>, es: seq<EPollState>, k: nat)
    requires IsRun(ops, ms, ps, es) && k <= |ops|
    ensures PollMatches(ps[k], ms[k]) && EPollMatches(es[k], ms[k])
  {
    if k > 0 {
      RunMatches(ops, ms, ps, es, k - 1);
      hide PollMatches, EPollMatches, PollStep, EPollStep, Apply, IsAllowed;
      StepMatches(ms[k - 1], ps[k - 1], es[k - 1], ops[k - 1]);
    }
  }

  /** No assertion of PollPoller fails and no epoll_ctl call of EPollPoller is refused. */
  lemma NothingIsRefused(ops: seq<Op>, ms: seq<Registry>, ps: seq<PollState>, es: seq<EPollState>, k: nat)
    requires IsRun(ops, ms, ps, es) && k < |ops|
    ensures PollAsserts(ps[k], ops[k])
    ensures forall c :: c in CtlOf(es[k], ops[k]) ==> CtlSucceeds(es[k].kernel, c, ops[k].fd)
  {
    RunMatches(ops, ms, ps, es, k);
    hide PollMatches, EPollMatches;
    StepMatches(ms[k], ps[k], es[k], ops[k]);
  }

  // An operation on another channel leaves a phase alone.
  lemma {:induction false} PhaseStays(ops: seq<Op>, ms: seq<Registry>, ps: seq<PollState>, es: seq<EPollState>,
                                      j: nat, k: nat, fd: nat)
    requires IsRun(ops, ms, ps, es) && j <= k <= |ops|
    requires forall i :: j <= i < k ==> ops[i].fd != fd
    ensures fd in ms[k] <==> fd in ms[j]
    ensures fd in ms[k] ==> ms[k][fd] == ms[j][fd]
    decreases k - j
  {
    if j < k { PhaseStays(ops, ms, ps, es, j, k - 1, fd); }
  }

  // The last operation on the descriptor before k asked for these events.
  ghost predicate IsAskedFor(ops: seq<Op>, k: nat, fd: nat, ev: Events)
    requires k <= |ops|
  {
    exists j :: 0 <= j < k && ops[j] == Update(fd, ev) && IsLastOn(ops, j, k, fd)
  }

  predicate IsLastOn(ops: seq<Op>, j: nat, k: nat, fd: nat)
    requires k <= |ops|
  {
    forall i :: j < i < k ==> ops[i].fd != fd
  }

  lemma {:induction false} BusyWasAsked(ops: seq<Op>, ms: seq<Registry>, ps: seq<PollState>, es: seq<EPollState>,
                                        k: nat, fd: nat) returns (j: nat)
    requires IsRun(ops, ms, ps, es) && k <= |ops| && fd in ms[k] && ms[k][fd].Busy?
    ensures j < k && ops[j] == Update(fd, ms[k][fd].events) && ms[k][fd].events != NONE_EVENT && IsLastOn(ops, j, k, fd)
  {
    if ops[k - 1].fd == fd {
      j := k - 1;
    } else {
      j := BusyWasAsked(ops, ms, ps, es, k - 1, fd);
    }
  }

  lemma BusyIffAsked(ops: seq<Op>, ms: seq<Registry>, ps: seq<PollState>, es: seq<EPollState>,
                     k: nat, fd: nat, ev: Events)
    requires IsRun(ops, ms, ps, es) && k <= |ops| && ev != NONE_EVENT
    ensures fd in ms[k] && ms[k][fd] == Busy(ev) <==> IsAskedFor(ops, k, fd, ev)
  {
    if fd in ms[k] && ms[k][fd] == Busy(ev) {
      var j := BusyWasAsked(ops, ms, ps, es, k, fd);
    }
    if IsAskedFor(ops, k, fd, ev) {
      var j :| 0 <= j < k && ops[j] == Update(fd, ev) && IsLastOn(ops, j, k, fd);
      PhaseStays(ops, ms, ps, es, j + 1, k, fd);
    }
  }

  /** After every sequence of operations both pollers watch the same descriptors for the same events:
      those the last operation on the descriptor asked for. */
  lemma PollersWatchTheSame(ops: seq<Op>, ms: seq<Registry>, ps: seq<PollState>, es: seq<EPollState>,
                            k: nat, fd: nat, ev: Events)
    requires IsRun(ops, ms, ps, es) && k <= |ops| && ev != NONE_EVENT
    ensures PollHolds(ps[k], fd, ev) <==> IsAskedFor(ops, k, fd, ev)
    ensures EPollHolds(es[k], fd, ev) <==> IsAskedFor(ops, k, fd, ev)
  {
    RunMatches(ops, ms, ps, es, k);
    BusyIffAsked(ops, ms, ps, es, k, fd, ev);
    hide *;
    PollHoldsPhase(ps[k], ms[k], fd, ev);
    EPollHoldsPhase(es[k], ms[k], fd, ev);
  }

  // The two kernels have the same descriptors with the same masks, empty masks (for which only
  // errors and hang-ups are reported) included.
  ghost predicate Agree(p: PollState, e: EPollState) {
    forall fd: nat, ev: Events :: PollHolds(p, fd, ev) <==> EPollHolds(e, fd, ev)
  }

  /** The kernels differ exactly over lingering channels: poll(2) ignores them, epoll has them. */
  lemma AgreeIffNoneLingers(ops: seq<Op>, ms: seq<Registry>, ps: seq<PollState>, es: seq<EPollState>, k: nat)
    requires IsRun(ops, ms, ps, es) && k <= |ops|
    ensures Agree(ps[k], es[k]) <==> forall fd :: fd in ms[k] ==> !ms[k][fd].Lingering?
  {
    RunMatches(ops, ms, ps, es, k);
    hide IsRun, PollMatches, EPollMatches, PollHolds, EPollHolds;
    if fd :| fd in ms[k] && ms[k][fd].Lingering? {
      PollHoldsPhase(ps[k], ms[k], fd, NONE_EVENT);
      EPollHoldsPhase(es[k], ms[k], fd, NONE_EVENT);
    } else {
      forall fd: nat, ev: Events ensures PollHolds(ps[k], fd, ev) <==> EPollHolds(es[k], fd, ev) {
        PollHoldsPhase(ps[k], ms[k], fd, ev);
        EPollHoldsPhase(es[k], ms[k], fd, ev);
      }
    }
  }

  // ---------- What the caller must not do ----------

  // Operations j and k are consecutive empty updates of one channel that was registered before.
  ghost predicate SilencedTwice(ops: seq<Op>, ms: seq<Registry>, j: nat, k: nat)
    requires |ms| == |ops| + 1
  {
    && j < k < |ops| && ops[j] == ops[k] == Update(ops[k].fd, NONE_EVENT) && ops[j].fd in ms[j]
    && forall i :: j < i < k ==> ops[i].fd != ops[k].fd
  }

  lemma {:induction false} IdleWasSilenced(ops: seq<Op>, ms: seq<Registry>, ps: seq<PollState>, es: seq<EPollState>,
                                           k: nat, fd: nat) returns (j: nat)
    requires IsRun(ops, ms, ps, es) && k <= |ops| && fd in ms[k] && ms[k][fd].Idle?
    ensures j < k && ops[j] == Update(fd, NONE_EVENT) && fd in ms[j]
    ensures forall i :: j < i < k ==> ops[i].fd != fd
  {
    if ops[k - 1].fd == fd {
      j := k - 1;
    } else {
      j := IdleWasSilenced(ops, ms, ps, es, k - 1, fd);
    }
  }

  lemma {:induction false} LingeringWasSilencedTwice(
    ops: seq<Op>, ms: seq<Registry>, ps: seq<PollState>, es: seq<EPollState>, k: nat, fd: nat)
    returns (i: nat, j: nat)
    requires IsRun(ops, ms, ps, es) && k <= |ops| && fd in ms[k] && ms[k][fd].Lingering?
    ensures SilencedTwice(ops, ms, i, j)
  {
    if ops[k - 1].fd == fd {
      i := IdleWasSilenced(ops, ms, ps, es, k - 1, fd);
      j := k - 1;
    } else {
      i, j := LingeringWasSilencedTwice(ops, ms, ps, es, k - 1, fd);
    }
  }

  lemma SilencedTwiceLingers(ops: seq<Op>, ms: seq<Registry>, ps: seq<PollState>, es: seq<EPollState>, j: nat, k: nat)
    returns (at: nat)
    requires IsRun(ops, ms, ps, es) && SilencedTwice(ops, ms, j, k)
    ensures at <= |ops| && ops[k].fd in ms[at] && ms[at][ops[k].fd].Lingering?
  {
    var fd := ops[k].fd;
    assert ms[j + 1][fd].Idle? || ms[j + 1][fd].Lingering?;
    PhaseStays(ops, ms, ps, es, j + 1, k, fd);
    at := if ms[k][fd].Lingering? then k else k + 1;
  }

  /** The pollers agree throughout a run if and only if no registered channel is silenced twice in a row. */
  lemma AgreeThroughout(ops: seq<Op>, ms: seq<Registry>, ps: seq<PollState>, es: seq<EPollState>)
    requires IsRun(ops, ms, ps, es)
    ensures (forall k :: 0 <= k <= |ops| ==> Agree(ps[k], es[k])) <==> !exists i, j :: SilencedTwice(ops, ms, i, j)
  {
    hide Agree, SilencedTwice;
    if i, j :| SilencedTwice(ops, ms, i, j) {
      var at := SilencedTwiceLingers(ops, ms, ps, es, i, j);
      AgreeIffNoneLingers(ops, ms, ps, es, at);
    } else {
      forall k | 0 <= k <= |ops| ensures Agree(ps[k], es[k]) {
        AgreeIffNoneLingers(ops, ms, ps, es, k);
        if fd :| fd in ms[k] && ms[k][fd].Lingering? {
          var i, j := LingeringWasSilencedTwice(ops, ms, ps, es, k, fd);
        }
      }
    }
  }

  /** Such a run: reading starts, stop_read ends it, handle_close ends everything. */
  lemma StopReadThenClose(fd: nat)
    returns (ops: seq<Op>, ms: seq<Registry>, ps: seq<PollState>, es: seq<EPollState>)
    ensures IsRun(ops, ms, ps, es) && |ops| == 3
    ensures EPollHolds(es[3], fd, NONE_EVENT) && forall ev :: !PollHolds(ps[3], fd, ev)
  {
    hide PollStep, EPollStep, PollHolds, EPollHolds, PollMatches, EPollMatches;
    ops := [Update(fd, READ_EVENT), Update(fd, NONE_EVENT), Update(fd, NONE_EVENT)];
    ms := [map[], map[fd := Busy(READ_EVENT)], map[fd := Idle], map[fd := Lingering]];
    var p1 := PollStep(PollState([], map[]), ops[0]);
    var p2 := PollStep(p1, ops[1]);
    ps := [PollState([], map[]), p1, p2, PollStep(p2, ops[2])];
    var e1 := EPollStep(EPollState(map[], map[]), ops[0]);
    var e2 := EPollStep(e1, ops[1]);
    es := [EPollState(map[], map[]), e1, e2, EPollStep(e2, ops[2])];
    RunMatches(ops, ms, ps, es, 3);
    EPollHoldsPhase(es[3], ms[3], fd, NONE_EVENT);
    forall ev ensures !PollHolds(ps[3], fd, ev) {
      PollHoldsPhase(ps[3], ms[3], fd, ev);
    }
  }

  // The channel has been updated since it was registered.
  ghost predicate IsUpdatedSince(ops: seq<Op>, ms: seq<Registry>, k: nat, fd: nat)
    requires |ms| == |ops| + 1 && k <= |ops|
  {
    exists i :: 0 <= i < k && ops[i].Update? && ops[i].fd == fd && fd in ms[i] && IsKept(ops, i, k, fd)
  }

  predicate IsKept(ops: seq<Op>, i: nat, k: nat, fd: nat)
    requires k <= |ops|
  {
    forall l :: i <= l < k ==> ops[l] != Remove(fd)
  }

  lemma {:induction false} NotFreshAfter(ops: seq<Op>, ms: seq<Registry>, ps: seq<PollState>, es: seq<EPollState>,
                                         i: nat, k: nat, fd: nat)
    requires IsRun(ops, ms, ps, es) && i < k <= |ops| && IsKept(ops, i, k, fd)
    requires ops[i].Update? && ops[i].fd == fd && fd in ms[i]
    ensures fd in ms[k] && !ms[k][fd].Fresh?
    decreases k
  {
    if i < k - 1 { NotFreshAfter(ops, ms, ps, es, i, k - 1, fd); }
  }

  lemma {:induction false} SilencedIsUpdated(ops: seq<Op>, ms: seq<Registry>, ps: seq<PollState>, es: seq<EPollState>,
                                             k: nat, fd: nat)
    requires IsRun(ops, ms, ps, es) && k <= |ops| && fd in ms[k] && (ms[k][fd].Idle? || ms[k][fd].Lingering?)
    ensures IsUpdatedSince(ops, ms, k, fd)
  {
    if ops[k - 1].fd == fd {
      assert IsKept(ops, k - 1, k, fd);
    } else {
      SilencedIsUpdated(ops, ms, ps, es, k - 1, fd);
      var i :| 0 <= i < k - 1 && ops[i].Update? && ops[i].fd == fd && fd in ms[i] && IsKept(ops, i, k - 1, fd);
      assert IsKept(ops, i, k, fd);
    }
  }

  /** When a registered channel without interest is to be removed, PollPoller's assertion about its
      entry holds if and only if the channel was updated again after the update that registered it. */
  lemma RemovalAssertion(ops: seq<Op>, ms: seq<Registry>, ps: seq<PollState>, es: seq<EPollState>, k: nat, fd: nat)
    requires IsRun(ops, ms, ps, es) && k <= |ops| && fd in ms[k] && !ms[k][fd].Busy?
    ensures PollAsserts(ps[k], Remove(fd)) <==> IsUpdatedSince(ops, ms, k, fd)
  {
    RunMatches(ops, ms, ps, es, k);
    assert PollMatchesAt(ps[k], ms[k], fd);
    assert PollAsserts(ps[k], Remove(fd)) <==> !ms[k][fd].Fresh?;
    hide PollMatches, EPollMatches, PollAsserts;
    if IsUpdatedSince(ops, ms, k, fd) {
      var i :| 0 <= i < k && ops[i].Update? && ops[i].fd == fd && fd in ms[i] && IsKept(ops, i, k, fd);
      NotFreshAfter(ops, ms, ps, es, i, k, fd);
    } else if !ms[k][fd].Fresh? {
      SilencedIsUpdated(ops, ms, ps, es, k, fd);
    }
  }
}
