/** Local time, flute/common/Timezone.cc, over an in-memory transition table. gmtime_r and
    timegm are the repository's own to_utc_time and from_utc_time. */
module Timezone {
  import opened Calendar

  datatype Localtime = Localtime(gmtOffset: int, isDst: bool, abbrIdx: nat)

  datatype Transition = Transition(gmt: int, local: int, idx: nat)

  datatype TimeData = TimeData(transitions: seq<Transition>, localtimes: seq<Localtime>)

  // What read_timezone_file builds: 32-bit values, and each transition's local time
  // counted in the type it switches to.
  predicate IsTable(z: TimeData) {
    && z.localtimes != []
    && (forall a :: 0 <= a < |z.localtimes| ==> IsInt32(z.localtimes[a].gmtOffset))
    && (forall i :: 0 <= i < |z.transitions| ==>
          && IsInt32(z.transitions[i].gmt)
          && z.transitions[i].idx < |z.localtimes|
          && z.transitions[i].local == z.transitions[i].gmt + z.localtimes[z.transitions[i].idx].gmtOffset)
  }

  // The field a Comp object compares.
  function Key(tr: Transition, compareGmt: bool): int {
    if compareGmt then tr.gmt else tr.local
  }

  // std::lower_bound: bisection of [first, first + len).
  function LowerBound(trs: seq<Transition>, key: int, compareGmt: bool, first: nat, len: nat): (r: nat)
    requires first + len <= |trs|
    ensures first <= r <= first + len
    decreases len
  {
    if len == 0 then first
    else
      var half := len / 2;
      if Key(trs[first + half], compareGmt) < key
      then LowerBound(trs, key, compareGmt, first + half + 1, len - half - 1)
      else LowerBound(trs, key, compareGmt, first, half)
  }

  function FindLocalTime(z: TimeData, key: int, compareGmt: bool): Localtime
    requires IsTable(z)
  {
    var trs := z.transitions;
    if trs == [] || key < Key(trs[0], compareGmt) then
      z.localtimes[0]
    else
      var i := LowerBound(trs, key, compareGmt, 0, |trs|);
      // i is never 0 past this test in an ascending table, as the code asserts
      if i < |trs| then
        if key != Key(trs[i], compareGmt) && i > 0 then z.localtimes[trs[i - 1].idx] else z.localtimes[trs[i].idx]
      else
        z.localtimes[trs[|trs| - 1].idx]
  }

  function ToLocalTime(z: TimeData, seconds: int): Tm
    requires IsTable(z)
  {
    var local := FindLocalTime(z, seconds, true);
    ToUtcTime(seconds + local.gmtOffset, true).(isDst := local.isDst, gmtoff := local.gmtOffset)
  }

  function FromLocalTime(z: TimeData, tm: Tm): int
    requires IsTable(z)
  {
    var seconds := FromUtcTime(tm);
    var local := FindLocalTime(z, seconds, false);
    var tryTm := ToLocalTime(z, seconds - local.gmtOffset);
    if tm.isDst && !tryTm.isDst && tryTm.hour == tm.hour && tryTm.min == tm.min
    then seconds - 3600 - local.gmtOffset
    else seconds - local.gmtOffset
  }

  // ---------- The discipline on tables ----------

  // Transitions ascend and lie further apart than any two offsets.
  predicate IsSpaced(z: TimeData)
    requires IsTable(z)
  {
    forall i, j, a, b ::
      0 <= i < j < |z.transitions| && 0 <= a < |z.localtimes| && 0 <= b < |z.localtimes| ==>
        z.localtimes[a].gmtOffset - z.localtimes[b].gmtOffset < z.transitions[j].gmt - z.transitions[i].gmt
  }

  // The type in force from transition i on; before the first one it is localtimes[0].
  function TypeFrom(z: TimeData, i: int): Localtime
    requires IsTable(z) && -1 <= i < |z.transitions|
  {
    if i < 0 then z.localtimes[0] else z.localtimes[z.transitions[i].idx]
  }

  predicate IsSetBack(z: TimeData, i: int)
    requires IsTable(z) && 0 <= i < |z.transitions|
  {
    TypeFrom(z, i).gmtOffset < TypeFrom(z, i - 1).gmtOffset
  }

  // Clocks go back by one hour, from daylight saving time to standard time.
  predicate EndsDst(z: TimeData, i: int)
    requires IsTable(z) && 0 <= i < |z.transitions|
  {
    && TypeFrom(z, i - 1).gmtOffset == TypeFrom(z, i).gmtOffset + 3600
    && TypeFrom(z, i - 1).isDst && !TypeFrom(z, i).isDst
  }

  predicate SetBacksEndDst(z: TimeData)
    requires IsTable(z)
  {
    forall i :: 0 <= i < |z.transitions| && IsSetBack(z, i) ==> EndsDst(z, i)
  }

  // ---------- Lookup ----------

  predicate Ascends(trs: seq<Transition>, compareGmt: bool) {
    forall i, j :: 0 <= i < j < |trs| ==> Key(trs[i], compareGmt) < Key(trs[j], compareGmt)
  }

  // Transition i is the last one not after the key; -1 when there is none.
  predicate IsLastUpTo(trs: seq<Transition>, key: int, compareGmt: bool, i: int) {
    && -1 <= i < |trs|
    && (0 <= i ==> Key(trs[i], compareGmt) <= key)
    && (i + 1 < |trs| ==> key < Key(trs[i + 1], compareGmt))
  }

  lemma SplitAt(trs: seq<Transition>, compareGmt: bool, k: nat)
    requires k < |trs| && Ascends(trs, compareGmt)
    ensures forall i :: 0 <= i <= k ==> Key(trs[i], compareGmt) <= Key(trs[k], compareGmt)
    ensures forall i :: k <= i < |trs| ==> Key(trs[k], compareGmt) <= Key(trs[i], compareGmt)
  {
  }

  // Entries lo..r are before the key and entries r..hi are not.
  predicate IsCut(trs: seq<Transition>, key: int, compareGmt: bool, lo: nat, r: nat, hi: nat)
    requires hi <= |trs|
  {
    && (forall i :: lo <= i < r && i < hi ==> Key(trs[i], compareGmt) < key)
    && (forall i :: r <= i < hi ==> key <= Key(trs[i], compareGmt))
  }

  lemma ExtendCut(trs: seq<Transition>, key: int, compareGmt: bool, lo: nat, r: nat, hi: nat, mid: nat)
    requires Ascends(trs, compareGmt) && lo <= mid < hi <= |trs|
    ensures Key(trs[mid], compareGmt) < key && mid < r && IsCut(trs, key, compareGmt, mid + 1, r, hi) ==>
              IsCut(trs, key, compareGmt, lo, r, hi)
    ensures key <= Key(trs[mid], compareGmt) && r <= mid && IsCut(trs, key, compareGmt, lo, r, mid) ==>
              IsCut(trs, key, compareGmt, lo, r, hi)
  {
    SplitAt(trs, compareGmt, mid);
    hide Ascends;
  }

  lemma LowerBoundStep(trs: seq<Transition>, key: int, compareGmt: bool, first: nat, len: nat)
    requires first + len <= |trs|
    ensures len == 0 ==> LowerBound(trs, key, compareGmt, first, len) == first
    ensures len > 0 ==>
              var half := len / 2;
              LowerBound(trs, key, compareGmt, first, len) ==
                if Key(trs[first + half], compareGmt) < key
                then LowerBound(trs, key, compareGmt, first + half + 1, len - half - 1)
                else LowerBound(trs, key, compareGmt, first, half)
  {
    hide Key;
  }

  lemma EmptyCut(trs: seq<Transition>, key: int, compareGmt: bool, at: nat)
    requires at <= |trs|
    ensures IsCut(trs, key, compareGmt, at, at, at)
  {
  }

  lemma {:induction false} LowerBoundCuts(trs: seq<Transition>, key: int, compareGmt: bool, first: nat, len: nat)
    requires first + len <= |trs| && Ascends(trs, compareGmt)
    ensures IsCut(trs, key, compareGmt, first, LowerBound(trs, key, compareGmt, first, len), first + len)
    decreases len
  {
    hide Ascends, Key, LowerBound, IsCut;
    LowerBoundStep(trs, key, compareGmt, first, len);
    if len == 0 {
      EmptyCut(trs, key, compareGmt, first);
    } else {
      var half := len / 2;
      ExtendCut(trs, key, compareGmt, first, LowerBound(trs, key, compareGmt, first, len), first + len, first + half);
      if Key(trs[first + half], compareGmt) < key {
        LowerBoundCuts(trs, key, compareGmt, first + half + 1, len - half - 1);
      } else {
        LowerBoundCuts(trs, key, compareGmt, first, half);
      }
    }
  }

  // Where the cut lies: at the last transition itself if the key hits it, and just behind it otherwise.
  lemma CutPosition(trs: seq<Transition>, key: int, compareGmt: bool, i: int, r: nat)
    requires Ascends(trs, compareGmt) && IsLastUpTo(trs, key, compareGmt, i)
    requires r <= |trs| && IsCut(trs, key, compareGmt, 0, r, |trs|)
    ensures r == if 0 <= i && Key(trs[i], compareGmt) == key then i else i + 1
    ensures r == i + 1 < |trs| ==> Key(trs[r], compareGmt) != key
    ensures trs != [] ==> (key < Key(trs[0], compareGmt) <==> i == -1)
  {
    hide Key;
    if 0 <= i {
      SplitAt(trs, compareGmt, i);
      assert Key(trs[0], compareGmt) <= Key(trs[i], compareGmt);
    }
    assert r > i ==> 0 <= i ==> Key(trs[i], compareGmt) < key;
    assert r < |trs| ==> key <= Key(trs[r], compareGmt);
    if i + 1 < |trs| { SplitAt(trs, compareGmt, i + 1); }
  }

  /** The bisection finds the type of the last transition not after the key. */
  lemma FindsLastTransition(z: TimeData, key: int, compareGmt: bool, i: int)
    requires IsTable(z) && Ascends(z.transitions, compareGmt) && IsLastUpTo(z.transitions, key, compareGmt, i)
    ensures FindLocalTime(z, key, compareGmt) == TypeFrom(z, i)
  {
    hide LowerBound, Key, Ascends, IsCut, IsLastUpTo;
    var trs := z.transitions;
    LowerBoundCuts(trs, key, compareGmt, 0, |trs|);
    CutPosition(trs, key, compareGmt, i, LowerBound(trs, key, compareGmt, 0, |trs|));
    LastIsIndex(trs, key, compareGmt, i);
  }

  lemma LastIsIndex(trs: seq<Transition>, key: int, compareGmt: bool, i: int)
    requires IsLastUpTo(trs, key, compareGmt, i)
    ensures -1 <= i < |trs|
  {
  }

  lemma Spacing(z: TimeData, i: nat, j: nat, a: nat, b: nat)
    requires IsTable(z) && IsSpaced(z) && i < j < |z.transitions| && a < |z.localtimes| && b < |z.localtimes|
    ensures z.localtimes[a].gmtOffset - z.localtimes[b].gmtOffset < z.transitions[j].gmt - z.transitions[i].gmt
  {
  }

  lemma SpacedAscends(z: TimeData)
    requires IsTable(z) && IsSpaced(z)
    ensures Ascends(z.transitions, true) && Ascends(z.transitions, false)
  {
    hide IsSpaced;
    var trs := z.transitions;
    forall i, j | 0 <= i < j < |trs|
      ensures trs[i].gmt < trs[j].gmt && trs[i].local < trs[j].local
    {
      Spacing(z, i, j, trs[i].idx, trs[j].idx);
      Spacing(z, i, j, 0, 0);
    }
  }

  lemma {:induction false} LastTransitionExists(trs: seq<Transition>, key: int, n: nat) returns (i: int)
    requires n <= |trs| && Ascends(trs, true)
    requires n < |trs| ==> key < trs[n].gmt
    ensures IsLastUpTo(trs, key, true, i)
  {
    if n == 0 || trs[n - 1].gmt <= key {
      i := n - 1;
    } else {
      i := LastTransitionExists(trs, key, n - 1);
    }
  }

  // ---------- The round trip ----------

  // The local reading of t, taken in the type of transition i, has reached transition i + 1.
  predicate ReadsPastNext(z: TimeData, t: int, i: int)
    requires IsTable(z) && -1 <= i < |z.transitions|
  {
    i + 1 < |z.transitions| && z.transitions[i + 1].local <= t + TypeFrom(z, i).gmtOffset
  }

  lemma LocalReading(z: TimeData, t: int, i: int)
    requires IsTable(z) && IsSpaced(z) && IsLastUpTo(z.transitions, t, true, i)
    requires InUtcRange(t + TypeFrom(z, i).gmtOffset)
    ensures var local, tm := TypeFrom(z, i), ToLocalTime(z, t);
            && tm == ToUtcTime(t + local.gmtOffset, true).(isDst := local.isDst, gmtoff := local.gmtOffset)
            && FromUtcTime(tm) == t + local.gmtOffset
  {
    hide ToUtcTime, GetJulianDayNumber;
    SpacedAscends(z);
    FindsLastTransition(z, t, true, i);
    UtcRoundTrip(t + TypeFrom(z, i).gmtOffset, true);
  }

  // Away from a set-back the reading leads back to the type it was taken in.
  lemma RoundTripPlain(z: TimeData, t: int, i: int)
    requires IsTable(z) && IsSpaced(z) && IsLastUpTo(z.transitions, t, true, i)
    requires InUtcRange(t + TypeFrom(z, i).gmtOffset) && !ReadsPastNext(z, t, i)
    ensures FromLocalTime(z, ToLocalTime(z, t)) == t
  {
    hide ToUtcTime, FromUtcTime, FindLocalTime, ToLocalTime;
    LocalReading(z, t, i);
    SpacedAscends(z);
    FindsLastTransition(z, t + TypeFrom(z, i).gmtOffset, false, i);
  }

  lemma AfterSetBack(z: TimeData, t: int, i: int)
    requires IsTable(z) && IsSpaced(z) && IsLastUpTo(z.transitions, t, true, i) && ReadsPastNext(z, t, i)
    ensures var back := TypeFrom(z, i).gmtOffset - TypeFrom(z, i + 1).gmtOffset;
            && back > 0
            && IsLastUpTo(z.transitions, t + TypeFrom(z, i).gmtOffset, false, i + 1)
            && IsLastUpTo(z.transitions, t + back, true, i + 1)
  {
    hide IsSpaced;
    var trs, j := z.transitions, i + 1;
    if j + 1 < |trs| {
      var a := if i < 0 then 0 else trs[i].idx;
      Spacing(z, j, j + 1, a, trs[j].idx);
      Spacing(z, j, j + 1, a, trs[j + 1].idx);
    }
  }

  // Inside the repeated stretch the one-hour correction applies, and is right, only at the end of DST.
  lemma RoundTripRepeated(z: TimeData, t: int, i: int)
    requires IsTable(z) && IsSpaced(z) && IsLastUpTo(z.transitions, t, true, i)
    requires InUtcRange(t + TypeFrom(z, i).gmtOffset) && ReadsPastNext(z, t, i)
    ensures FromLocalTime(z, ToLocalTime(z, t)) == t <==> EndsDst(z, i + 1)
  {
    hide IsSpaced, Ascends, IsTable, ToUtcTime, FromUtcTime, FindLocalTime, ToLocalTime, InUtcRange, IsLastUpTo;
    LocalReading(z, t, i);
    AfterSetBack(z, t, i);
    SpacedAscends(z);
    FindsLastTransition(z, t + TypeFrom(z, i).gmtOffset, false, i + 1);
    LocalReading(z, t + TypeFrom(z, i).gmtOffset - TypeFrom(z, i + 1).gmtOffset, i + 1);
  }

  // Times whose local reading the calendar code can represent.
  predicate IsReadable(z: TimeData, t: int)
    requires IsTable(z)
  {
    InUtcRange(t + FindLocalTime(z, t, true).gmtOffset)
  }

  lemma SmallTimesInRange(t: int)
    requires -0x2_0000_0000 <= t <= 0x2_0000_0000
    ensures InUtcRange(t)
  {
    UtcSplitIsFloor(t);
    assert JULIAN_DAY_OF_1970_01_01 == 2440588;
    hide UtcSplit, GetJulianDayNumber;
  }

  /** from_local_time undoes to_local_time at every readable time, both passes of a repeated
      hour included, if and only if clocks only ever go back by one hour from DST to standard time. */
  lemma LocalRoundTrip(z: TimeData)
    requires IsTable(z) && IsSpaced(z)
    ensures (forall t :: IsReadable(z, t) ==> FromLocalTime(z, ToLocalTime(z, t)) == t) <==> SetBacksEndDst(z)
  {
    if SetBacksEndDst(z) {
      forall t | IsReadable(z, t) ensures FromLocalTime(z, ToLocalTime(z, t)) == t {
        RoundTripFor(z, t);
      }
    } else {
      var i :| 0 <= i < |z.transitions| && IsSetBack(z, i) && !EndsDst(z, i);
      RoundTripFails(z, i);
    }
  }

  lemma RoundTripFor(z: TimeData, t: int)
    requires IsTable(z) && IsSpaced(z) && SetBacksEndDst(z) && IsReadable(z, t)
    ensures FromLocalTime(z, ToLocalTime(z, t)) == t
  {
    hide IsSpaced, FromLocalTime, ToLocalTime, FindLocalTime, InUtcRange;
    SpacedAscends(z);
    var i := LastTransitionExists(z.transitions, t, |z.transitions|);
    FindsLastTransition(z, t, true, i);
    if ReadsPastNext(z, t, i) {
      AfterSetBack(z, t, i);
      RoundTripRepeated(z, t, i);
    } else {
      RoundTripPlain(z, t, i);
    }
  }

  // One second before a set-back of any other kind, the round trip fails.
  lemma RoundTripFails(z: TimeData, i: int)
    requires IsTable(z) && IsSpaced(z) && 0 <= i < |z.transitions| && IsSetBack(z, i) && !EndsDst(z, i)
    ensures var t := z.transitions[i].gmt - 1;
            IsReadable(z, t) && FromLocalTime(z, ToLocalTime(z, t)) != t
  {
    hide IsSpaced, FromLocalTime, ToLocalTime, FindLocalTime, InUtcRange;
    var t := z.transitions[i].gmt - 1;
    SpacedAscends(z);
    assert IsLastUpTo(z.transitions, t, true, i - 1);
    FindsLastTransition(z, t, true, i - 1);
    SmallTimesInRange(t + TypeFrom(z, i - 1).gmtOffset);
    RoundTripRepeated(z, t, i - 1);
  }

  // ---------- Any reading ----------

  // Two local times show the same hour and minute.
  predicate ShowSameMinute(a: int, b: int) {
    a % SECONDS_PER_DAY / 60 == b % SECONDS_PER_DAY / 60
  }

  lemma MinuteOfDay(h: int, m: int, s: int)
    requires 0 <= m < 60 && 0 <= s < 60
    ensures (h * 3600 + m * 60 + s) / 60 == h * 60 + m
  {
  }

  lemma MinuteIsUnique(h: int, m: int, h': int, m': int)
    requires 0 <= m < 60 && 0 <= m' < 60
    ensures h * 60 + m == h' * 60 + m' <==> h == h' && m == m'
  {
  }

  lemma SameMinuteShown(tm: Tm, t: int, yday: bool)
    requires IsClock(tm)
    ensures var other := ToUtcTime(t, yday);
            other.hour == tm.hour && other.min == tm.min <==> ShowSameMinute(FromUtcTime(tm), t)
  {
    var other := ToUtcTime(t, yday);
    ClockOf(t, yday);
    UtcSplitIsFloor(t);
    SplitOfFields(tm);
    UtcSplitIsFloor(FromUtcTime(tm));
    hide ToUtcTime, FromUtcTime, UtcSplit;
    MinuteOfDay(tm.hour, tm.min, tm.sec);
    MinuteOfDay(other.hour, other.min, other.sec);
    MinuteIsUnique(tm.hour, tm.min, other.hour, other.min);
  }

  // The type in force at the instant that a local time means by its last transition i: that of i, or
  // of the next one if the clock skipped the local time.
  function InForce(z: TimeData, seconds: int, i: int): int
    requires IsTable(z) && -1 <= i < |z.transitions|
  {
    if i + 1 < |z.transitions| && z.transitions[i + 1].gmt <= seconds - TypeFrom(z, i).gmtOffset then i + 1 else i
  }

  lemma InForceIsLast(z: TimeData, seconds: int, i: int)
    requires IsTable(z) && IsSpaced(z) && IsLastUpTo(z.transitions, seconds, false, i)
    ensures IsLastUpTo(z.transitions, seconds - TypeFrom(z, i).gmtOffset, true, InForce(z, seconds, i))
  {
    hide IsSpaced;
    var trs, j := z.transitions, i + 1;
    if j + 1 < |trs| {
      Spacing(z, j, j + 1, trs[j].idx, if i < 0 then 0 else trs[i].idx);
    }
  }

  /** What from_local_time makes of any reading: the instant by the last transition up to it in local
      time, one hour earlier if the reading claims DST, the type in force then is not DST, and the
      clock shows the same hour and minute at that instant. */
  lemma AnyReading(z: TimeData, tm: Tm, i: int)
    requires IsTable(z) && IsSpaced(z) && IsClock(tm) && IsLastUpTo(z.transitions, FromUtcTime(tm), false, i)
    ensures var seconds := FromUtcTime(tm);
            var instant, now := seconds - TypeFrom(z, i).gmtOffset, TypeFrom(z, InForce(z, seconds, i));
            FromLocalTime(z, tm) ==
              if tm.isDst && !now.isDst && ShowSameMinute(seconds, instant + now.gmtOffset)
              then instant - 3600 else instant
  {
    hide ToUtcTime, FromUtcTime, FindLocalTime, ShowSameMinute, IsSpaced, Ascends, IsLastUpTo;
    LastIsIndex(z.transitions, FromUtcTime(tm), false, i);
    SpacedAscends(z);
    var seconds := FromUtcTime(tm);
    FindsLastTransition(z, seconds, false, i);
    var instant, j := seconds - TypeFrom(z, i).gmtOffset, InForce(z, seconds, i);
    InForceIsLast(z, seconds, i);
    FindsLastTransition(z, instant, true, j);
    SameMinuteShown(tm, instant + TypeFrom(z, j).gmtOffset, true);
  }
}
