/** File transfer in chunks, flute/common/ZeroCopier.cc and ZeroCopier.h, in its sendfile and mmap
    modes. The file keeps its contents while it is sent. */
module ZeroCopier {
  import opened Bytes

  const MAX_TRIAL: nat := 100
  const PAGE_SIZE: nat := 4096

  datatype Mode = ZeroCopy | MMap

  datatype Copier = Copier(file: seq<Byte>, available: bool, targetFd: int, started: bool,
                           total: nat, offset: nat, failures: nat)

  // What the kernel answers one attempt: an error, or n bytes taken (and then munmap may still fail).
  datatype Answer = Refused | Took(n: nat, unmapFails: bool)

  predicate IsValidCopier(c: Copier) {
    c.available && c.targetFd != -1
  }

  predicate HasFinished(c: Copier) {
    !IsValidCopier(c) || !c.started || c.offset == c.total
  }

  // How many bytes send_one_chunk asks the kernel to take.
  function BytesToSend(c: Copier, chunk: nat): (n: nat)
    requires c.offset <= c.total
    ensures n <= chunk && n <= c.total - c.offset && (n == chunk || n == c.total - c.offset)
  {
    if chunk <= c.total - c.offset then chunk else c.total - c.offset
  }

  // The bytes still to send.
  function Tail(c: Copier): seq<Byte> {
    if IsValidCopier(c) && c.offset <= c.total <= |c.file| then c.file[c.offset..c.total] else []
  }

  predicate Inv(c: Copier) {
    c.offset <= c.total <= |c.file| && (c.offset < c.total ==> c.failures < MAX_TRIAL)
  }

  // What the kernel can answer.
  predicate IsPossible(c: Copier, chunk: nat, a: Answer)
    requires c.offset <= c.total
  {
    a.Took? ==> a.n <= BytesToSend(c, chunk)
  }

  // The number send_one_chunk_zerocopy or send_one_chunk_mmap returns, and the bytes taken.
  function Result(mode: Mode, a: Answer): (int, nat) {
    match a
    case Refused => (-1, 0)
    case Took(n, unmapFails) =>
      if mode == ZeroCopy then (n, n)
      else if n > 0 then (if unmapFails then -1 else n, n) else (-1, 0)
  }

  // send_one_chunk: the copier afterwards.
  function SendOneChunk(c: Copier, mode: Mode, a: Answer): Copier {
    if !IsValidCopier(c) || !c.started || c.total <= c.offset then c
    else
      var (returned, taken) := Result(mode, a);
      var moved := c.(offset := c.offset + taken);
      if returned >= 0 then moved.(failures := 0)
      else if c.failures + 1 >= MAX_TRIAL then
        // mark_abort
        moved.(failures := c.failures + 1, total := 0, offset := 0)
      else moved.(failures := c.failures + 1)
  }

  // The bytes it puts on the wire.
  function Sent(c: Copier, mode: Mode, a: Answer): seq<Byte> {
    var n := Result(mode, a).1;
    if HasFinished(c) || c.offset + n > |c.file| then [] else c.file[c.offset..c.offset + n]
  }

  predicate IsAborting(c: Copier, mode: Mode, a: Answer) {
    !HasFinished(c) && Result(mode, a).0 < 0 && c.failures + 1 >= MAX_TRIAL
  }

  // ---------- The mapped window ----------

  /** In mmap mode the mapping starts on a page boundary, and the bytes sent from it, at the gap
      behind that boundary, are the bytes of the file at m_offset. */
  lemma MappedBytes(file: seq<Byte>, offset: nat, bytesToSend: nat, n: nat)
    requires offset + bytesToSend <= |file| && n <= bytesToSend
    ensures var pageOffset := offset / PAGE_SIZE * PAGE_SIZE;
            var gap := offset - pageOffset;
            var len := gap + bytesToSend;
            && pageOffset % PAGE_SIZE == 0 && 0 <= gap < PAGE_SIZE && pageOffset + len <= |file|
            && file[pageOffset..pageOffset + len][gap..gap + n] == file[offset..offset + n]
  {
    var page := offset / PAGE_SIZE;
    assert offset == page * PAGE_SIZE + offset % PAGE_SIZE;
  }

  // ---------- One chunk ----------

  // The attempt fails: the kernel refuses, or in mmap mode takes nothing or will not unmap.
  predicate Fails(mode: Mode, a: Answer) {
    a.Refused? || (mode == MMap && (a.n == 0 || a.unmapFails))
  }

  /** An attempt moves the offset by what the kernel took, and a success clears the failures; the
      hundredth failure in a row gives the file up. */
  lemma AttemptOutcome(c: Copier, mode: Mode, a: Answer)
    requires !HasFinished(c) && c.offset < c.total
    ensures var c', taken := SendOneChunk(c, mode, a), if a.Took? then a.n else 0;
            if Fails(mode, a) && c.failures >= 99
            then c' == c.(total := 0, offset := 0, failures := c.failures + 1)
            else c' == c.(offset := c.offset + taken, failures := if Fails(mode, a) then c.failures + 1 else 0)
    ensures IsAborting(c, mode, a) <==> Fails(mode, a) && c.failures >= 99
    ensures var taken := if a.Took? then a.n else 0;
            c.offset + taken <= |c.file| ==> Sent(c, mode, a) == c.file[c.offset..c.offset + taken]
  {
  }

  lemma ChunkKeepsInv(c: Copier, mode: Mode, chunk: nat, a: Answer)
    requires Inv(c) && IsPossible(c, chunk, a)
    ensures Inv(SendOneChunk(c, mode, a))
  {
  }

  /** What was left is what is sent now and what is left then, unless the copier gives up; then
      nothing is left, and what is sent is a prefix of what was left. */
  lemma ChunkConserves(c: Copier, mode: Mode, chunk: nat, a: Answer)
    requires Inv(c) && IsPossible(c, chunk, a)
    ensures Sent(c, mode, a) <= Tail(c)
    ensures var c' := SendOneChunk(c, mode, a);
            if IsAborting(c, mode, a) then HasFinished(c') && Tail(c') == []
            else Tail(c) == Sent(c, mode, a) + Tail(c')
  {
  }

  // ---------- Termination ----------

  function Remaining(c: Copier): nat {
    if c.offset <= c.total then c.total - c.offset else 0
  }

  function Measure(c: Copier): nat {
    if HasFinished(c) then 0 else MAX_TRIAL * Remaining(c) + (if c.failures < MAX_TRIAL then MAX_TRIAL - c.failures else 0)
  }

  // The attempt counts as a failure or takes at least one byte. Only sendfile answering zero does
  // neither: in mmap mode a send of zero bytes is a failure.
  predicate MakesHeadway(mode: Mode, a: Answer) {
    mode == ZeroCopy && a.Took? ==> a.n > 0
  }

  lemma ChunkDecreasesMeasure(c: Copier, mode: Mode, chunk: nat, a: Answer)
    requires Inv(c) && IsPossible(c, chunk, a) && !HasFinished(c) && MakesHeadway(mode, a)
    ensures Measure(SendOneChunk(c, mode, a)) < Measure(c)
  {
  }

  // A run of attempts; the chunk size may change from one to the next.
  ghost predicate IsTransfer(mode: Mode, chunks: seq<nat>, answers: seq<Answer>, cs: seq<Copier>) {
    && |cs| == |answers| + 1 && |chunks| == |answers|
    && forall k :: 0 <= k < |answers| ==>
         && cs[k].offset <= cs[k].total && IsPossible(cs[k], chunks[k], answers[k])
         && cs[k + 1] == SendOneChunk(cs[k], mode, answers[k])
  }

  lemma {:induction false} MeasureFalls(mode: Mode, chunks: seq<nat>, answers: seq<Answer>, cs: seq<Copier>, k: nat)
    requires IsTransfer(mode, chunks, answers, cs) && Inv(cs[0]) && k <= |answers|
    requires forall i :: 0 <= i < |answers| ==> MakesHeadway(mode, answers[i])
    ensures Inv(cs[k]) && (HasFinished(cs[k]) || Measure(cs[k]) + k <= Measure(cs[0]))
  {
    if k > 0 {
      MeasureFalls(mode, chunks, answers, cs, k - 1);
      var c, a, chunk := cs[k - 1], answers[k - 1], chunks[k - 1];
      hide Measure, Inv;
      ChunkKeepsInv(c, mode, chunk, a);
      if !HasFinished(c) { ChunkDecreasesMeasure(c, mode, chunk, a); }
    }
  }

  /** A transfer of r bytes has finished, or been given up, after 100 * r + 100 attempts. */
  lemma TransferEnds(mode: Mode, chunks: seq<nat>, answers: seq<Answer>, cs: seq<Copier>)
    requires IsTransfer(mode, chunks, answers, cs) && Inv(cs[0])
    requires forall i :: 0 <= i < |answers| ==> MakesHeadway(mode, answers[i])
    requires |answers| >= 100 * Remaining(cs[0]) + 100
    ensures HasFinished(cs[|answers|])
  {
    MeasureFalls(mode, chunks, answers, cs, |answers|);
    hide IsTransfer;
  }

  /** In mmap mode that holds whatever the kernel answers. */
  lemma MappedTransferEnds(chunks: seq<nat>, answers: seq<Answer>, cs: seq<Copier>)
    requires IsTransfer(MMap, chunks, answers, cs) && Inv(cs[0])
    requires |answers| >= 100 * Remaining(cs[0]) + 100
    ensures HasFinished(cs[|answers|])
  {
    TransferEnds(MMap, chunks, answers, cs);
  }

  /** Headway is exactly what the measure needs. */
  lemma MeasureFallsIffHeadway(c: Copier, mode: Mode, chunk: nat, a: Answer)
    requires Inv(c) && IsPossible(c, chunk, a) && !HasFinished(c)
    ensures Measure(SendOneChunk(c, mode, a)) < Measure(c) <==> MakesHeadway(mode, a)
  {
    if MakesHeadway(mode, a) {
      ChunkDecreasesMeasure(c, mode, chunk, a);
    }
  }

  /** Without headway there is no end: sendfile answering 0, as at the end of a file that has become
      shorter, resets the failure counter every time. */
  lemma {:induction false} ZeroBytesForever(chunks: seq<nat>, answers: seq<Answer>, cs: seq<Copier>, k: nat)
    requires IsTransfer(ZeroCopy, chunks, answers, cs) && Inv(cs[0]) && !HasFinished(cs[0]) && k <= |answers|
    requires forall i :: 0 <= i < |answers| ==> answers[i].Took? && answers[i].n == 0
    ensures !HasFinished(cs[k]) && cs[k].offset == cs[0].offset && cs[k].total == cs[0].total
  {
    if k > 0 { ZeroBytesForever(chunks, answers, cs, k - 1); }
  }
}
