/** The code of both pollers, over channel objects, against the steps of module Pollers. */
module PollersImpl {
  import opened Pollers

  datatype Change = WantToRead | EndReading | WantToWrite | EndWriting | EndAll

  function Changed(events: Events, change: Change): Events {
    match change
    case WantToRead => events | READ_EVENT
    case EndReading => events & !READ_EVENT
    case WantToWrite => events | WRITE_EVENT
    case EndWriting => events & !WRITE_EVENT
    case EndAll => NONE_EVENT
  }

  lemma WriteBit(events: Events, change: Change)
    ensures Changed(events, change) & WRITE_EVENT != 0 <==>
              change.WantToWrite? || (events & WRITE_EVENT != 0 && !change.EndWriting? && !change.EndAll?)
  {
  }

  lemma ReadOn(events: Events)
    ensures (events | READ_EVENT) & READ_EVENT == READ_EVENT
  {
  }

  lemma ReadOff(events: Events)
    ensures (events & !READ_EVENT) & READ_EVENT == 0
  {
  }

  lemma WriteOnLeavesRead(events: Events)
    ensures (events | WRITE_EVENT) & READ_EVENT == events & READ_EVENT
  {
  }

  lemma WriteOffLeavesRead(events: Events)
    ensures (events & !WRITE_EVENT) & READ_EVENT == events & READ_EVENT
  {
  }

  lemma ReadBit(events: Events, change: Change)
    ensures Changed(events, change) & READ_EVENT != 0 <==>
              change.WantToRead? || (events & READ_EVENT != 0 && !change.EndReading? && !change.EndAll?)
  {
    match change
    case WantToRead => ReadOn(events);
    case EndReading => ReadOff(events);
    case WantToWrite => WriteOnLeavesRead(events);
    case EndWriting => WriteOffLeavesRead(events);
    case EndAll =>
  }

  // Each change turns its own interest on or off and leaves the other alone.
  lemma ChangedBits(events: Events, change: Change)
    ensures Changed(events, change) & WRITE_EVENT != 0 <==>
              change.WantToWrite? || (events & WRITE_EVENT != 0 && !change.EndWriting? && !change.EndAll?)
    ensures Changed(events, change) & READ_EVENT != 0 <==>
              change.WantToRead? || (events & READ_EVENT != 0 && !change.EndReading? && !change.EndAll?)
    ensures change.EndAll? ==> Changed(events, change) == NONE_EVENT
  {
    WriteBit(events, change);
    ReadBit(events, change);
    assert change.EndAll? ==> Changed(events, change) == NONE_EVENT;
    hide Changed;
  }

  // flute/net/Channel.h: the interest mask and the field pollers keep their index in.
  class Channel {
    const fd: nat
    var events: Events
    var recvEvents: int
    var idx: int

    constructor (fd: nat)
      ensures this.fd == fd && events == NONE_EVENT && idx == K_NEW
    {
      this.fd, events, recvEvents, idx := fd, NONE_EVENT, 0, K_NEW;
    }

    predicate IsWriting()
      reads this
    {
      events & WRITE_EVENT != 0
    }

    predicate IsReading()
      reads this
    {
      events & READ_EVENT != 0
    }
  }

  class PollPoller {
    var pollfds: seq<PollFd>
    var channels: map<nat, Channel>
    ghost var registry: Registry

    ghost function View(): PollState
      reads this`pollfds, this`channels, (set c | c in channels.Values)`idx
    {
      PollState(pollfds, map fd | fd in channels :: channels[fd].idx)
    }

    ghost predicate Valid()
      reads this, channels.Values
    {
      IsKeyed() && PollMatches(View(), registry)
    }

    constructor ()
      ensures Valid() && View() == PollState([], map[]) && channels == map[] && registry == map[]
    {
      pollfds, channels, registry := [], map[], map[];
    }

    predicate IsKeyed()
      reads this`channels
    {
      forall fd :: fd in channels ==> channels[fd].fd == fd
    }

    method UpdateChannel(ch: Channel)
      requires Valid()
      requires ch.fd in channels ==> channels[ch.fd] == ch
      // a channel that was removed is not used again: its index is not reset
      requires ch.idx < 0 <==> ch.fd !in channels
      modifies this, ch`idx
      ensures Valid() && channels == old(channels)[ch.fd := ch] && ch.idx >= 0
      ensures registry == Apply(old(registry), Update(ch.fd, ch.events))
    {
      hide PollMatches, Apply, PollUpdate;
      ghost var s, m := View(), registry;
      PollUpdateRefines(s, m, ch.fd, ch.events);
      StoreEntry(ch);
      registry := Apply(m, Update(ch.fd, ch.events));
    }

    // update_channel, on the vector and the indices.
    method StoreEntry(ch: Channel)
      requires IsKeyed() && (ch.fd in channels ==> channels[ch.fd] == ch)
      requires ch.fd in channels ==> 0 <= ch.idx < |pollfds|
      requires ch.idx < 0 <==> ch.fd !in channels
      modifies this`pollfds, this`channels, ch`idx
      ensures channels == old(channels)[ch.fd := ch] && IsKeyed() && ch.idx >= 0
      ensures View() == PollUpdate(old(View()), ch.fd, ch.events)
    {
      if ch.idx < 0 {
        pollfds := pollfds + [PollFd(ch.fd, ch.events)];
        ch.idx := |pollfds| - 1;
        channels := channels[ch.fd := ch];
      } else {
        var i := ch.idx;
        assert i == View().index[ch.fd];
        var entry := PollFd(ch.fd, ch.events);
        if ch.events == NONE_EVENT {
          entry := entry.(fd := Negated(ch.fd));
        }
        pollfds := pollfds[i := entry];
      }
    }

    // A change of interest reaches the poller at once: Channel::update_self_in_reactor.
    method ChangeInterest(ch: Channel, change: Change)
      requires Valid()
      requires ch.fd in channels ==> channels[ch.fd] == ch
      requires ch.idx < 0 <==> ch.fd !in channels
      modifies this, ch`idx, ch`events
      ensures Valid() && channels == old(channels)[ch.fd := ch] && ch.idx >= 0
      ensures ch.IsWriting() <==>
                change.WantToWrite? || (old(ch.IsWriting()) && !change.EndWriting? && !change.EndAll?)
      ensures ch.IsReading() <==>
                change.WantToRead? || (old(ch.IsReading()) && !change.EndReading? && !change.EndAll?)
      ensures registry == Apply(old(registry), Update(ch.fd, ch.events))
      ensures forall ev :: PollHolds(View(), ch.fd, ev) ==> ev == ch.events
      ensures ch.events != NONE_EVENT ==> PollHolds(View(), ch.fd, ch.events)
    {
      hide PollMatches, PollHolds;
      ChangedBits(ch.events, change);
      ch.events := Changed(ch.events, change);
      UpdateChannel(ch);
      ghost var s := View();
      forall ev ensures PollHolds(s, ch.fd, ev) ==> ev == ch.events {
        PollHoldsPhase(s, registry, ch.fd, ev);
      }
      PollHoldsPhase(s, registry, ch.fd, ch.events);
    }

    method RemoveChannel(ch: Channel)
      requires Valid() && ch.fd in channels && channels[ch.fd] == ch
      requires IsAllowed(registry, Remove(ch.fd))
      modifies this, (set c | c in channels.Values)`idx
      ensures Valid() && channels == old(channels) - {ch.fd}
      ensures registry == Apply(old(registry), Remove(ch.fd))
      ensures ch.idx == old(ch.idx)
    {
      ghost var s, m := View(), registry;
      AllowedAsserts(s, m, Remove(ch.fd));
      PollRemoveRefines(s, m, ch.fd);
      assert PollInv(s);
      hide PollMatches, Apply, PollRemove, PollInv;
      SwapRemove(ch);
      registry := Apply(m, Remove(ch.fd));
    }

    // remove_channel, on the vector and the indices.
    method SwapRemove(ch: Channel)
      requires IsKeyed() && PollInv(View()) && ch.fd in channels && channels[ch.fd] == ch
      requires PollAsserts(View(), Remove(ch.fd))
      modifies this`pollfds, this`channels, (set c | c in channels.Values)`idx
      ensures channels == old(channels) - {ch.fd} && IsKeyed()
      ensures View() == PollRemove(old(View()), ch.fd)
      ensures ch.idx == old(ch.idx)
    {
      var i := ch.idx;
      assert i == View().index[ch.fd] && 0 <= i < |pollfds|;
      ghost var last := Decoded(pollfds[|pollfds| - 1].fd);
      assert last in channels && (i != |pollfds| - 1 ==> last != ch.fd) by {
        assert View().index[last] == |pollfds| - 1;
      }
      hide PollInv, PollAsserts;
      channels := channels - {ch.fd};
      if i == |pollfds| - 1 {
        pollfds := pollfds[..|pollfds| - 1];
      } else {
        MoveLast(i);
      }
    }

    // The last entry takes the place of entry i, and its channel learns so.
    method MoveLast(i: nat)
      requires i < |pollfds| - 1 && Decoded(pollfds[|pollfds| - 1].fd) in channels && IsKeyed()
      modifies this`pollfds, (set c | c in channels.Values)`idx
      ensures var end := |old(pollfds)| - 1;
              && pollfds == old(pollfds)[i := old(pollfds)[end]][..end]
              && View().index == old(View()).index[Decoded(old(pollfds)[end].fd) := i]
              && forall c :: c in channels.Values && c.fd != Decoded(old(pollfds)[end].fd) ==> c.idx == old(c.idx)
    {
      var channelAtEnd := pollfds[|pollfds| - 1].fd;
      pollfds := pollfds[i := pollfds[|pollfds| - 1]];
      if channelAtEnd < 0 {
        channelAtEnd := Negated(channelAtEnd);
      }
      channels[channelAtEnd].idx := i;
      pollfds := pollfds[..|pollfds| - 1];
    }

    // active lists the channels of the ready entries among the first i, each told its events.
    ghost predicate HasReported(revents: seq<int>, i: nat, active: seq<Channel>)
      requires i <= |pollfds| == |revents|
      reads this, channels.Values
    {
      && |active| == |ReadyFds(pollfds, revents, i)|
      && (forall k :: 0 <= k < |active| ==>
            ReadyFds(pollfds, revents, i)[k] in channels && active[k] == channels[ReadyFds(pollfds, revents, i)[k]])
      && (forall k :: 0 <= k < i && revents[k] > 0 ==>
            Decoded(pollfds[k].fd) in channels && channels[Decoded(pollfds[k].fd)].recvEvents == revents[k])
    }

    method ReportOne(revents: seq<int>, i: nat, active: seq<Channel>) returns (active': seq<Channel>)
      requires Valid() && i < |pollfds| == |revents| && HasReported(revents, i, active)
      requires revents[i] > 0 && pollfds[i].fd >= 0
      modifies (set c | c in channels.Values)`recvEvents
      ensures Valid() && HasReported(revents, i + 1, active') && |active'| == |active| + 1
    {
      var fd := pollfds[i].fd;
      assert Decoded(fd) in View().index && View().index[Decoded(fd)] == i;
      forall k | 0 <= k < i ensures Decoded(pollfds[k].fd) != fd && Decoded(pollfds[k].fd) in channels {
        assert View().index[Decoded(pollfds[k].fd)] == k;
      }
      channels[fd].recvEvents := revents[i];
      active' := active + [channels[fd]];
    }

    lemma ReportStart(revents: seq<int>)
      requires |pollfds| == |revents|
      ensures HasReported(revents, 0, [])
    {
    }

    // Nothing is left to report once the counts agree.
    lemma ReportNone(revents: seq<int>, i: nat, n: nat, active: seq<Channel>)
      requires i <= n <= |pollfds| == |revents| && HasReported(revents, i, active)
      requires |ReadyFds(pollfds, revents, n)| == |active| || (n == i + 1 && revents[i] <= 0)
      ensures HasReported(revents, n, active)
    {
      ReadyFdsGrow(pollfds, revents, i, n);
    }

    // register_active_channels: poll(2) reports events for n of the entries, none of them negated.
    method RegisterActiveChannels(revents: seq<int>, n: nat) returns (active: seq<Channel>)
      requires Valid() && |revents| == |pollfds| && n == |ReadyFds(pollfds, revents, |pollfds|)|
      requires forall i :: 0 <= i < |revents| && revents[i] > 0 ==> pollfds[i].fd >= 0
      modifies (set c | c in channels.Values)`recvEvents
      ensures Valid() && HasReported(revents, |pollfds|, active)
      ensures forall fd :: fd in channels ==> 0 <= channels[fd].idx < |revents|
      ensures forall fd :: fd in channels ==> (channels[fd] in active <==> revents[channels[fd].idx] > 0)
      ensures forall fd :: fd in channels && channels[fd] in active ==>
                channels[fd].recvEvents == revents[channels[fd].idx]
      ensures forall c :: c in active ==> c in channels.Values
      ensures forall a, b :: 0 <= a < b < |active| ==> active[a].idx < active[b].idx
    {
      hide *;
      active := [];
      var left := n;
      var i := 0;
      ReportStart(revents);
      while i < |pollfds| && left > 0
        invariant Valid() && 0 <= i <= |pollfds| && HasReported(revents, i, active) && left == n - |active|
      {
        if revents[i] > 0 {
          left := left - 1;
          active := ReportOne(revents, i, active);
        } else {
          ReportNone(revents, i, i + 1, active);
        }
        i := i + 1;
      }
      if i < |pollfds| { ReportNone(revents, i, |pollfds|, active); }
      ReportIsExact(revents, active);
    }

    lemma ReportedAt(revents: seq<int>, active: seq<Channel>, k: nat)
      requires Valid() && |pollfds| == |revents| && HasReported(revents, |pollfds|, active) && k < |active|
      ensures |active| == |ReadyIndexes(revents, |revents|)| && active[k].idx == ReadyIndexes(revents, |revents|)[k]
      ensures active[k].fd in channels && channels[active[k].fd] == active[k]
    {
      AsManyReady(pollfds, revents, |pollfds|);
      ReadyFdAt(pollfds, revents, |pollfds|, k);
      var i := ReadyIndexes(revents, |revents|)[k];
      assert View().index[Decoded(pollfds[i].fd)] == i;
    }

    lemma EntryOf(fd: nat)
      requires Valid() && fd in channels
      ensures 0 <= channels[fd].idx < |pollfds| && Decoded(pollfds[channels[fd].idx].fd) == fd
    {
      assert View().index[fd] == channels[fd].idx;
    }

    lemma ReportHas(revents: seq<int>, active: seq<Channel>, fd: nat)
      requires Valid() && |pollfds| == |revents| && HasReported(revents, |pollfds|, active) && fd in channels
      ensures 0 <= channels[fd].idx < |revents|
      ensures channels[fd] in active <==> revents[channels[fd].idx] > 0
      ensures channels[fd] in active ==> channels[fd].recvEvents == revents[channels[fd].idx]
    {
      EntryOf(fd);
      var i := channels[fd].idx;
      if revents[i] > 0 {
        AsManyReady(pollfds, revents, |pollfds|);
        var k := FindReady(revents, |revents|, i);
        ReadyFdAt(pollfds, revents, |pollfds|, k);
        assert active[k] == channels[fd];
      } else if channels[fd] in active {
        var k :| 0 <= k < |active| && active[k] == channels[fd];
        ReportedAt(revents, active, k);
        ReadyAt(revents, |revents|, k);
      }
    }

    lemma ReportIsExact(revents: seq<int>, active: seq<Channel>)
      requires Valid() && |pollfds| == |revents| && HasReported(revents, |pollfds|, active)
      ensures forall fd :: fd in channels ==> 0 <= channels[fd].idx < |revents|
      ensures forall fd :: fd in channels ==> (channels[fd] in active <==> revents[channels[fd].idx] > 0)
      ensures forall fd :: fd in channels && channels[fd] in active ==>
                channels[fd].recvEvents == revents[channels[fd].idx]
      ensures forall c :: c in active ==> c in channels.Values
      ensures forall a, b :: 0 <= a < b < |active| ==> active[a].idx < active[b].idx
    {
      hide *;
      forall fd | fd in channels
        ensures 0 <= channels[fd].idx < |revents|
        ensures channels[fd] in active <==> revents[channels[fd].idx] > 0
        ensures channels[fd] in active ==> channels[fd].recvEvents == revents[channels[fd].idx]
      {
        ReportHas(revents, active, fd);
      }
      forall c | c in active ensures c in channels.Values {
        var k :| 0 <= k < |active| && active[k] == c;
        ReportedAt(revents, active, k);
      }
      forall a, b | 0 <= a < b < |active| ensures active[a].idx < active[b].idx {
        ReportedAt(revents, active, a);
        ReportedAt(revents, active, b);
        ReadyAscend(revents, |revents|, a, b);
      }
    }
  }

  // The entries among the first n that have events, in order.
  ghost function ReadyIndexes(revents: seq<int>, n: nat): seq<nat>
    requires n <= |revents|
  {
    if n == 0 then [] else ReadyIndexes(revents, n - 1) + if revents[n - 1] > 0 then [n - 1] else []
  }

  lemma {:induction false} ReadyAt(revents: seq<int>, n: nat, k: nat)
    requires n <= |revents| && k < |ReadyIndexes(revents, n)|
    ensures ReadyIndexes(revents, n)[k] < n && revents[ReadyIndexes(revents, n)[k]] > 0
  {
    if k < |ReadyIndexes(revents, n - 1)| { ReadyAt(revents, n - 1, k); }
  }

  lemma {:induction false} ReadyAscend(revents: seq<int>, n: nat, a: nat, b: nat)
    requires n <= |revents| && a < b < |ReadyIndexes(revents, n)|
    ensures ReadyIndexes(revents, n)[a] < ReadyIndexes(revents, n)[b]
  {
    if b < |ReadyIndexes(revents, n - 1)| {
      ReadyAscend(revents, n - 1, a, b);
    } else {
      ReadyAt(revents, n - 1, a);
    }
  }

  lemma {:induction false} FindReady(revents: seq<int>, n: nat, i: nat) returns (k: nat)
    requires i < n <= |revents| && revents[i] > 0
    ensures k < |ReadyIndexes(revents, n)| && ReadyIndexes(revents, n)[k] == i
  {
    if i == n - 1 {
      k := |ReadyIndexes(revents, n)| - 1;
    } else {
      k := FindReady(revents, n - 1, i);
    }
  }

  lemma {:induction false} AsManyReady(pollfds: seq<PollFd>, revents: seq<int>, n: nat)
    requires n <= |pollfds| == |revents|
    ensures |ReadyFds(pollfds, revents, n)| == |ReadyIndexes(revents, n)|
  {
    if n > 0 { AsManyReady(pollfds, revents, n - 1); }
  }

  lemma {:induction false} ReadyFdAt(pollfds: seq<PollFd>, revents: seq<int>, n: nat, k: nat)
    requires n <= |pollfds| == |revents| && k < |ReadyIndexes(revents, n)|
    ensures ReadyIndexes(revents, n)[k] < n && k < |ReadyFds(pollfds, revents, n)|
    ensures ReadyFds(pollfds, revents, n)[k] == Decoded(pollfds[ReadyIndexes(revents, n)[k]].fd)
  {
    ReadyAt(revents, n, k);
    AsManyReady(pollfds, revents, n);
    AsManyReady(pollfds, revents, n - 1);
    if k < |ReadyIndexes(revents, n - 1)| { ReadyFdAt(pollfds, revents, n - 1, k); }
  }

  // Descriptors of the first n entries that have events, in order.
  function ReadyFds(pollfds: seq<PollFd>, revents: seq<int>, n: nat): seq<nat>
    requires n <= |pollfds| == |revents|
  {
    if n == 0 then []
    else ReadyFds(pollfds, revents, n - 1) + if revents[n - 1] > 0 then [Decoded(pollfds[n - 1].fd)] else []
  }

  lemma {:induction false} ReadyFdsGrow(pollfds: seq<PollFd>, revents: seq<int>, i: nat, n: nat)
    requires i <= n <= |pollfds| == |revents|
    ensures ReadyFds(pollfds, revents, i) <= ReadyFds(pollfds, revents, n)
    ensures |ReadyFds(pollfds, revents, i)| == |ReadyFds(pollfds, revents, n)| ==>
              forall k :: i <= k < n ==> revents[k] <= 0
  {
    if i < n { ReadyFdsGrow(pollfds, revents, i, n - 1); }
  }

  class EPollPoller {
    var channels: map<nat, Channel>
    ghost var kernel: map<nat, Events>   // the kernel's interest set
    ghost var registry: Registry

    ghost function View(): EPollState
      reads this`channels, this`kernel, (set c | c in channels.Values)`idx
    {
      EPollState(map fd | fd in channels :: channels[fd].idx, kernel)
    }

    predicate IsKeyed()
      reads this`channels
    {
      forall fd :: fd in channels ==> channels[fd].fd == fd
    }

    ghost predicate Valid()
      reads this, channels.Values
    {
      IsKeyed() && EPollMatches(View(), registry)
    }

    constructor ()
      ensures Valid() && View() == EPollState(map[], map[]) && channels == map[] && registry == map[]
    {
      channels, kernel, registry := map[], map[], map[];
    }

    // update: one epoll_ctl call. No other descriptor is touched, and the kernel has this one,
    // with the channel's present interest, unless the call was a DEL.
    method Control(ctl: Ctl, ch: Channel)
      requires CtlSucceeds(kernel, ctl, ch.fd)
      modifies this`kernel
      ensures forall fd :: fd != ch.fd ==> (fd in kernel <==> fd in old(kernel))
      ensures forall fd :: fd != ch.fd && fd in kernel ==> kernel[fd] == old(kernel)[fd]
      ensures ch.fd in kernel <==> !ctl.Del?
      ensures ch.fd in kernel ==> kernel[ch.fd] == ch.events
      ensures kernel == CtlEffect(old(kernel), ctl, ch.fd, ch.events)
    {
      match ctl {
        case Add => kernel := kernel[ch.fd := ch.events];
        case Mod => kernel := kernel[ch.fd := ch.events];
        case Del => kernel := kernel - {ch.fd};
      }
    }

    method UpdateChannel(ch: Channel)
      requires Valid()
      requires ch.fd in channels ==> channels[ch.fd] == ch
      requires ch.idx == K_NEW <==> ch.fd !in channels
      modifies this, ch`idx
      ensures Valid() && channels == old(channels)[ch.fd := ch] && ch.idx != K_NEW
      ensures registry == Apply(old(registry), Update(ch.fd, ch.events))
    {
      ghost var s, m, op := View(), registry, Update(ch.fd, ch.events);
      assert EPollMatchesAt(s, m, ch.fd);
      EPollStepRefines(s, m, op);
      hide EPollMatches, Apply, EPollStep;
      StoreInterest(ch);
      registry := Apply(m, op);
    }

    // update_channel, on the indices and the kernel's set.
    method StoreInterest(ch: Channel)
      requires IsKeyed() && (ch.fd in channels ==> channels[ch.fd] == ch)
      requires ch.idx == K_NEW <==> ch.fd !in channels
      requires ch.idx == K_NEW || ch.idx == K_ADDED || ch.idx == K_DELETED
      requires ch.fd in kernel <==> ch.idx == K_ADDED
      modifies this`channels, this`kernel, ch`idx
      ensures channels == old(channels)[ch.fd := ch] && IsKeyed() && ch.idx != K_NEW
      ensures View() == EPollStep(old(View()), Update(ch.fd, ch.events))
    {
      assert ch.fd in channels ==> View().index[ch.fd] == ch.idx;
      if ch.idx == K_NEW || ch.idx == K_DELETED {
        if ch.idx == K_NEW {
          channels := channels[ch.fd := ch];
        }
        ch.idx := K_ADDED;
        Control(Add, ch);
      } else if ch.events == NONE_EVENT {
        Control(Del, ch);
        ch.idx := K_DELETED;
      } else {
        Control(Mod, ch);
      }
    }

    // A change of interest reaches the poller at once: Channel::update_self_in_reactor.
    method ChangeInterest(ch: Channel, change: Change)
      requires Valid()
      requires ch.fd in channels ==> channels[ch.fd] == ch
      requires ch.idx == K_NEW <==> ch.fd !in channels
      modifies this, ch`idx, ch`events
      ensures Valid() && channels == old(channels)[ch.fd := ch] && ch.idx != K_NEW
      ensures ch.IsWriting() <==>
                change.WantToWrite? || (old(ch.IsWriting()) && !change.EndWriting? && !change.EndAll?)
      ensures ch.IsReading() <==>
                change.WantToRead? || (old(ch.IsReading()) && !change.EndReading? && !change.EndAll?)
      ensures registry == Apply(old(registry), Update(ch.fd, ch.events))
      ensures ch.fd in kernel ==> kernel[ch.fd] == ch.events
      ensures ch.events != NONE_EVENT ==> ch.fd in kernel
    {
      hide EPollMatches;
      ChangedBits(ch.events, change);
      ch.events := Changed(ch.events, change);
      UpdateChannel(ch);
      if ch.fd in kernel {
        EPollHoldsPhase(View(), registry, ch.fd, kernel[ch.fd]);
      }
      EPollHoldsPhase(View(), registry, ch.fd, ch.events);
    }

    method RemoveChannel(ch: Channel)
      requires Valid() && ch.fd in channels && channels[ch.fd] == ch && ch.events == NONE_EVENT
      modifies this, ch`idx
      ensures Valid() && channels == old(channels) - {ch.fd} && ch.idx == K_NEW
      ensures registry == Apply(old(registry), Remove(ch.fd))
      ensures ch.fd !in kernel
    {
      ghost var s, m := View(), registry;
      assert EPollMatchesAt(s, m, ch.fd);
      forall g: nat ensures EPollMatchesAt(EPollStep(s, Remove(ch.fd)), Apply(m, Remove(ch.fd)), g) {
        EPollStepAt(s, m, Remove(ch.fd), g);
      }
      hide EPollMatchesAt;
      channels := channels - {ch.fd};
      if ch.idx == K_ADDED {
        Control(Del, ch);
      }
      ch.idx := K_NEW;
      registry := Apply(m, Remove(ch.fd));
      assert View() == EPollStep(s, Remove(ch.fd));
    }
  }
}
