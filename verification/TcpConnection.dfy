/** The sending side of a TCP connection, flute/net/TcpConnection.cc: an output buffer, then a file,
    under partial writes, failures and a graceful half-close. The output buffer is its contents. */
module TcpConnection {
  import opened Bytes
  import opened ZeroCopier

  datatype ConnState = Connected | Disconnecting | Disconnected
  datatype SendingState = NotSending | SendingBuffer | SendingFile

  datatype Attached = Nothing | Attached(copier: Copier)

  datatype State = State(
    conn: ConnState,
    sending: SendingState,
    output: seq<Byte>,
    writing: bool,             // the channel's write interest
    file: Attached,            // m_zero_copier_ptr
    shut: bool,                // shutdown_write has been called
    // history
    wire: seq<Byte>,           // what the kernel has taken
    accepted: seq<Byte>,       // everything accepted for sending
    losses: seq<Loss>,         // one for each file given up
    open: seq<Byte>)           // what was accepted since the last loss

  // What was accepted since the previous loss, in two parts; the second is the unsent tail of the
  // file that was given up, whose copier is recorded as it was before it was marked finished.
  datatype Loss = Loss(kept: seq<Byte>, lost: seq<Byte>, copier: Copier)

  datatype Op =
    | Send(data: seq<Byte>)
    | EnableZeroCopy(copier: Copier, fd: nat)
    | Shutdown
    | Writable(mode: Mode, chunk: nat, n: int, answer: Answer)
    | Close

  // ---------- The code ----------

  function ShutdownInReactor(s: State): State {
    if !s.writing then s.(shut := true) else s
  }

  function TransferSendingState(s: State): State {
    match s.sending
    case NotSending =>
      if s.output != [] then s.(sending := SendingBuffer)
      else if s.file.Attached? && !HasFinished(s.file.copier) then s.(sending := SendingFile)
      else s
    case SendingBuffer => if s.output == [] then s.(sending := NotSending) else s
    case SendingFile => if s.file.Attached? && HasFinished(s.file.copier) then s.(sending := NotSending) else s
  }

  // write(2) takes n bytes of the buffer, or fails with n < 0.
  function WriteSocketFromBuffer(s: State, n: int): State
    requires n <= |s.output|
  {
    if n < 0 then s else s.(wire := s.wire + s.output[..n], output := s.output[n..])
  }

  // One chunk of the attached file, and what it means for the history.
  function SendChunk(s: State, mode: Mode, a: Answer): State
    requires s.file.Attached?
  {
    var c := s.file.copier;
    var s1 := s.(file := Attached(SendOneChunk(c, mode, a)), wire := s.wire + Sent(c, mode, a));
    if IsAborting(c, mode, a)
    then s1.(losses := s.losses + [LossOf(s.open, GivenUp(c, mode, a))], open := [])
    else s1
  }

  // The copier after its last attempt, before mark_abort.
  function GivenUp(c: Copier, mode: Mode, a: Answer): Copier {
    c.(offset := c.offset + Result(mode, a).1)
  }

  function LossOf(open: seq<Byte>, c: Copier): Loss {
    var n := |Tail(c)|;
    Loss(if n <= |open| then open[..|open| - n] else [], Tail(c), c)
  }

  function BufferPhase(s: State, n: int): State
    requires n <= |s.output|
  {
    if s.sending != SendingFile
    then TransferSendingState(WriteSocketFromBuffer(s.(sending := SendingBuffer), n))
    else s
  }

  function FilePhase(s: State, mode: Mode, a: Answer): State {
    if s.output == [] && s.file.Attached? && s.sending != SendingBuffer then
      var s1 := TransferSendingState(SendChunk(s.(sending := SendingFile), mode, a));
      if HasFinished(s1.file.copier) then s1.(file := Nothing) else s1
    else s
  }

  function FinishPhase(s: State): State {
    if s.sending == NotSending then
      var s1 := s.(writing := false);
      if s1.conn == Disconnecting then ShutdownInReactor(s1) else s1
    else s
  }

  function HandleSocketWritable(s: State, mode: Mode, n: int, a: Answer): State
    requires n <= |s.output|
  {
    if s.writing then FinishPhase(FilePhase(BufferPhase(s, n), mode, a)) else s
  }

  // The caller's side: nothing else is sent while a file is attached, and the kernel answers within reason.
  predicate IsAllowed(s: State, op: Op) {
    match op
    case Send(data) => s.file.Nothing? || data == []
    case EnableZeroCopy(c, _) => s.file.Nothing? && ZeroCopier.Inv(c)
    case Shutdown => true
    case Writable(_, chunk, n, a) =>
      && n <= |s.output|
      && (s.file.Attached? ==> s.file.copier.offset <= s.file.copier.total && IsPossible(s.file.copier, chunk, a))
    case Close => s.conn != Disconnected
  }

  function Do(s: State, op: Op): State
    requires op.Writable? ==> op.n <= |s.output|
  {
    match op
    case Send(data) =>
      if s.conn == Connected && data != [] then
        s.(output := s.output + data, writing := true, accepted := s.accepted + data, open := s.open + data)
      else s
    case EnableZeroCopy(c, fd) =>
      var c1 := c.(targetFd := fd, started := true);
      s.(file := Attached(c1), writing := true, accepted := s.accepted + Tail(c1), open := s.open + Tail(c1))
    case Shutdown =>
      if s.conn == Connected then ShutdownInReactor(s.(conn := Disconnecting)) else s
    case Writable(mode, _, n, a) => HandleSocketWritable(s, mode, n, a)
    case Close => s.(conn := Disconnected, writing := false)
  }

  const INITIAL := State(Connected, NotSending, [], false, Nothing, false, [], [], [], [])

  ghost predicate IsRun(ops: seq<Op>, states: seq<State>) {
    && |states| == |ops| + 1 && states[0] == INITIAL
    && forall k :: 0 <= k < |ops| ==> IsAllowed(states[k], ops[k]) && states[k + 1] == Do(states[k], ops[k])
  }

  // ---------- The invariant ----------

  function FileTail(s: State): seq<Byte> {
    if s.file.Attached? then Tail(s.file.copier) else []
  }

  predicate SendingAgrees(s: State) {
    && (s.sending == SendingBuffer ==> s.output != [])
    && (s.sending == SendingFile ==> s.file.Attached? && !HasFinished(s.file.copier) && s.output == [])
    && (s.file.Attached? ==> ZeroCopier.Inv(s.file.copier) && s.file.copier.started)
  }

  // Write interest is on exactly when there is something to send.
  predicate WritingAgrees(s: State) {
    s.conn != Disconnected ==> (s.writing <==> s.output != [] || s.file.Attached?)
  }

  function AllBytes(losses: seq<Loss>): seq<Byte> {
    if losses == [] then []
    else AllBytes(losses[..|losses| - 1]) + (losses[|losses| - 1].kept + losses[|losses| - 1].lost)
  }

  function KeptBytes(losses: seq<Loss>): seq<Byte> {
    if losses == [] then [] else KeptBytes(losses[..|losses| - 1]) + losses[|losses| - 1].kept
  }

  // Accepted bytes are kept and lost stretches in turn, and then what came after the last loss.
  predicate IsSplit(s: State) {
    s.accepted == AllBytes(s.losses) + s.open
  }

  // Wire, buffer and unsent file tail are the kept stretches in order, and what came after.
  predicate IsConserved(s: State) {
    && s.wire + s.output + FileTail(s) == KeptBytes(s.losses) + s.open
    && |FileTail(s)| <= |s.open|
  }

  predicate LossesAreTails(s: State) {
    forall i :: 0 <= i < |s.losses| ==> s.losses[i].lost == Tail(s.losses[i].copier)
  }

  predicate BytesAgree(s: State) {
    IsConserved(s) && IsSplit(s) && LossesAreTails(s)
  }

  predicate Inv(s: State) {
    SendingAgrees(s) && WritingAgrees(s) && BytesAgree(s)
  }

  // ---------- Every operation keeps it ----------

  lemma SendKeepsInv(s: State, op: Op)
    requires Inv(s) && op.Send? && IsAllowed(s, op)
    ensures Inv(Do(s, op))
  {
    hide KeptBytes, AllBytes, Tail;
    assert s.wire + (s.output + op.data) + [] == s.wire + s.output + [] + op.data;
    assert KeptBytes(s.losses) + (s.open + op.data) == KeptBytes(s.losses) + s.open + op.data;
    assert AllBytes(s.losses) + (s.open + op.data) == AllBytes(s.losses) + s.open + op.data;
  }

  lemma EnableKeepsInv(s: State, op: Op)
    requires Inv(s) && op.EnableZeroCopy? && IsAllowed(s, op)
    ensures Inv(Do(s, op))
  {
    hide KeptBytes, AllBytes, Tail;
    var tail := Tail(op.copier.(targetFd := op.fd, started := true));
    assert s.wire + s.output + tail == s.wire + s.output + [] + tail;
    assert KeptBytes(s.losses) + (s.open + tail) == KeptBytes(s.losses) + s.open + tail;
    assert AllBytes(s.losses) + (s.open + tail) == AllBytes(s.losses) + s.open + tail;
  }

  lemma ShutdownAndCloseKeepInv(s: State, op: Op)
    requires Inv(s) && (op.Shutdown? || op.Close?) && IsAllowed(s, op)
    ensures Inv(Do(s, op))
  {
  }

  lemma WriteKeepsBytes(s: State, n: int)
    requires BytesAgree(s) && n <= |s.output|
    ensures BytesAgree(WriteSocketFromBuffer(s, n))
  {
    hide Tail, KeptBytes, AllBytes;
    if n >= 0 {
      assert s.output == s.output[..n] + s.output[n..];
      Assoc(s.wire, s.output[..n], s.output[n..]);
    }
  }

  lemma BufferPhaseKeeps(s: State, n: int)
    requires SendingAgrees(s) && BytesAgree(s) && n <= |s.output|
    ensures var s1 := BufferPhase(s, n);
            && SendingAgrees(s1) && BytesAgree(s1)
            && s1.file == s.file && s1.writing == s.writing && s1.conn == s.conn && s1.shut == s.shut
            && (s1.sending == SendingBuffer <==> s1.output != [])
  {
    hide BytesAgree, ZeroCopier.Inv, HasFinished;
    var s0 := s.(sending := SendingBuffer);
    BytesIgnoreSending(s, SendingBuffer);
    WriteKeepsBytes(s0, n);
    BytesIgnoreSending(WriteSocketFromBuffer(s0, n), NotSending);
  }

  lemma BytesIgnoreSending(s: State, sending: SendingState)
    requires BytesAgree(s)
    ensures BytesAgree(s.(sending := sending))
  {
    hide Tail, KeptBytes, AllBytes;
  }

  // The byte-string algebra of one chunk, and of one that is the last.
  lemma ChunkAlgebra(wire: seq<Byte>, sent: seq<Byte>, tail: seq<Byte>)
    ensures wire + sent + [] + tail == wire + [] + (sent + tail)
  {
  }

  lemma LossAlgebra(wire: seq<Byte>, sent: seq<Byte>, lost: seq<Byte>, kept: seq<Byte>, open: seq<Byte>)
    requires wire + [] + (sent + lost) == kept + open && |lost| <= |open|
    ensures var n := |open| - |lost|;
            wire + sent == kept + open[..n] && open == open[..n] + lost
  {
    var n := |open| - |lost|;
    var whole := kept + open;
    assert whole == wire + sent + lost;
    assert wire + sent == whole[..|kept| + n] && lost == whole[|kept| + n..];
    assert kept + open[..n] == whole[..|kept| + n] && open[n..] == whole[|kept| + n..];
  }

  lemma AddLoss(losses: seq<Loss>, l: Loss)
    ensures AllBytes(losses + [l]) == AllBytes(losses) + (l.kept + l.lost)
    ensures KeptBytes(losses + [l]) == KeptBytes(losses) + l.kept
  {
    assert (losses + [l])[..|losses|] == losses;
  }

  // What the last attempt sent and what it leaves unsent are what was left.
  lemma LastAttempt(c: Copier, mode: Mode, chunk: nat, a: Answer)
    requires ZeroCopier.Inv(c) && IsPossible(c, chunk, a) && IsAborting(c, mode, a)
    ensures Tail(c) == Sent(c, mode, a) + Tail(GivenUp(c, mode, a))
    ensures Tail(SendOneChunk(c, mode, a)) == []
  {
  }

  lemma AbortEffect(s: State, mode: Mode, chunk: nat, a: Answer)
    requires s.output == [] && s.file.Attached? && IsAborting(s.file.copier, mode, a) && |FileTail(s)| <= |s.open|
    requires ZeroCopier.Inv(s.file.copier) && IsPossible(s.file.copier, chunk, a)
    ensures var c, s' := s.file.copier, SendChunk(s, mode, a);
            var l := LossOf(s.open, GivenUp(c, mode, a));
            && s'.wire == s.wire + Sent(c, mode, a) && s'.output == [] && FileTail(s') == []
            && s'.losses == s.losses + [l] && s'.open == [] && s'.accepted == s.accepted
            && |l.lost| <= |s.open| && l.kept == s.open[..|s.open| - |l.lost|]
            && FileTail(s) == Sent(c, mode, a) + l.lost && l.lost == Tail(l.copier)
  {
    LastAttempt(s.file.copier, mode, chunk, a);
    hide SendOneChunk, Sent, Tail, GivenUp, ZeroCopier.Inv, IsPossible;
  }

  lemma AbortConserves(s: State, mode: Mode, chunk: nat, a: Answer)
    requires BytesAgree(s) && s.output == []
    requires s.file.Attached? && ZeroCopier.Inv(s.file.copier) && IsPossible(s.file.copier, chunk, a)
    requires IsAborting(s.file.copier, mode, a)
    ensures BytesAgree(SendChunk(s, mode, a))
  {
    AbortEffect(s, mode, chunk, a);
    hide SendChunk, Sent, Tail, IsAborting, GivenUp, LossOf, KeptBytes, AllBytes, FileTail, ZeroCopier.Inv, IsPossible;
    var s' := SendChunk(s, mode, a);
    var l := LossOf(s.open, GivenUp(s.file.copier, mode, a));
    LossAlgebra(s.wire, Sent(s.file.copier, mode, a), l.lost, KeptBytes(s.losses), s.open);
    AddLoss(s.losses, l);
    assert s'.wire + [] + [] == s'.wire;
    assert KeptBytes(s'.losses) + [] == KeptBytes(s'.losses);
    assert AllBytes(s'.losses) + [] == AllBytes(s'.losses);
  }

  lemma ChunkStepConserves(s: State, mode: Mode, chunk: nat, a: Answer)
    requires BytesAgree(s) && s.output == []
    requires s.file.Attached? && ZeroCopier.Inv(s.file.copier) && IsPossible(s.file.copier, chunk, a)
    ensures BytesAgree(SendChunk(s, mode, a))
  {
    var c := s.file.copier;
    if IsAborting(c, mode, a) {
      hide *;
      AbortConserves(s, mode, chunk, a);
    } else {
      ChunkConserves(c, mode, chunk, a);
      hide SendOneChunk, Sent, Tail, IsAborting, HasFinished, KeptBytes, AllBytes;
      ChunkAlgebra(s.wire, Sent(c, mode, a), Tail(SendOneChunk(c, mode, a)));
    }
  }

  // What follows the chunk: the state is brought up to date and a finished copier is let go.
  lemma AfterChunk(s: State)
    requires s.sending == SendingFile && s.output == [] && BytesAgree(s)
    requires s.file.Attached? && ZeroCopier.Inv(s.file.copier) && s.file.copier.started
    ensures var s1 := TransferSendingState(s);
            var s2 := if HasFinished(s1.file.copier) then s1.(file := Nothing) else s1;
            && SendingAgrees(s2) && BytesAgree(s2)
            && s2.output == s.output && s2.writing == s.writing && s2.conn == s.conn && s2.shut == s.shut
            && (s2.sending == NotSending <==> s2.file.Nothing?)
  {
    FinishedHasNoTail(s.file.copier);
    hide Tail, ZeroCopier.Inv, HasFinished;
  }

  lemma ChunkIsLocal(s: State, mode: Mode, a: Answer)
    requires s.file.Attached?
    ensures var s1 := SendChunk(s, mode, a);
            && s1.file == Attached(SendOneChunk(s.file.copier, mode, a)) && s1.file.copier.started == s.file.copier.started
            && s1.sending == s.sending && s1.output == s.output && s1.writing == s.writing
            && s1.conn == s.conn && s1.shut == s.shut
  {
  }

  lemma FilePhaseKeeps(s: State, mode: Mode, chunk: nat, a: Answer)
    requires SendingAgrees(s) && BytesAgree(s)
    requires s.sending == SendingBuffer <==> s.output != []
    requires s.file.Attached? ==> IsPossible(s.file.copier, chunk, a)
    ensures var s1 := FilePhase(s, mode, a);
            && SendingAgrees(s1) && BytesAgree(s1)
            && s1.output == s.output && s1.writing == s.writing && s1.conn == s.conn && s1.shut == s.shut
            && (s1.sending == NotSending <==> s1.output == [] && s1.file.Nothing?)
  {
    if s.output == [] && s.file.Attached? {
      var s1 := s.(sending := SendingFile);
      assert BytesAgree(s1);
      hide SendChunk, TransferSendingState, BytesAgree, SendOneChunk, ZeroCopier.Inv, HasFinished;
      ChunkKeepsInv(s.file.copier, mode, chunk, a);
      ChunkStepConserves(s1, mode, chunk, a);
      ChunkIsLocal(s1, mode, a);
      AfterChunk(SendChunk(s1, mode, a));
    }
  }

  lemma FinishedHasNoTail(c: Copier)
    requires c.started
    ensures HasFinished(c) ==> Tail(c) == []
  {
  }

  lemma FinishPhaseKeeps(s: State)
    requires SendingAgrees(s) && BytesAgree(s) && s.writing
    requires s.sending == NotSending <==> s.output == [] && s.file.Nothing?
    ensures var s1 := FinishPhase(s);
            Inv(s1) && (s1.shut && !s.shut ==> s1.output == [] && s1.file.Nothing?)
  {
  }

  lemma WritableKeepsInv(s: State, op: Op)
    requires Inv(s) && op.Writable? && IsAllowed(s, op)
    ensures Inv(Do(s, op))
    ensures Do(s, op).shut && !s.shut ==> Do(s, op).output == [] && Do(s, op).file.Nothing?
  {
    hide SendingAgrees, BytesAgree, WritingAgrees, BufferPhase, FilePhase, FinishPhase;
    if s.writing {
      var s1 := BufferPhase(s, op.n);
      BufferPhaseKeeps(s, op.n);
      var s2 := FilePhase(s1, op.mode, op.answer);
      FilePhaseKeeps(s1, op.mode, op.chunk, op.answer);
      FinishPhaseKeeps(s2);
    }
  }

  lemma DoKeepsInv(s: State, op: Op)
    requires Inv(s) && IsAllowed(s, op)
    ensures Inv(Do(s, op))
    ensures Do(s, op).shut && !s.shut ==> Do(s, op).output == [] && Do(s, op).file.Nothing?
  {
    match op
    case Send(_) => SendKeepsInv(s, op);
    case EnableZeroCopy(_, _) => EnableKeepsInv(s, op);
    case Shutdown => ShutdownAndCloseKeepInv(s, op);
    case Close => ShutdownAndCloseKeepInv(s, op);
    case Writable(_, _, _, _) => WritableKeepsInv(s, op); hide HandleSocketWritable;
  }

  lemma {:induction false} RunKeepsInv(ops: seq<Op>, states: seq<State>, k: nat)
    requires IsRun(ops, states) && k <= |ops|
    ensures Inv(states[k])
  {
    if k > 0 {
      RunKeepsInv(ops, states, k - 1);
      hide Do, IsAllowed, Inv;
      DoKeepsInv(states[k - 1], ops[k - 1]);
    }
  }

  // ---------- Whole runs ----------

  // The operation is the last, failed attempt of the attached file.
  predicate GivesUp(s: State, op: Op) {
    && op.Writable? && op.n <= |s.output| && s.writing
    && var s1 := BufferPhase(s, op.n);
       && s1.output == [] && s1.file.Attached? && s1.sending != SendingBuffer
       && IsAborting(s1.file.copier, op.mode, op.answer)
  }

  // The wire, the buffer and the history after the file's turn are those after its chunk.
  lemma FilePhaseFields(s: State, mode: Mode, a: Answer)
    ensures var s' := FilePhase(s, mode, a);
            var mid := if s.output == [] && s.file.Attached? && s.sending != SendingBuffer
                       then SendChunk(s.(sending := SendingFile), mode, a) else s;
            && s'.wire == mid.wire && s'.output == mid.output && s'.losses == mid.losses
            && s'.open == mid.open && s'.accepted == mid.accepted && s'.conn == mid.conn
  {
    hide SendChunk, HasFinished;
    if s.file.Attached? { ChunkIsLocal(s.(sending := SendingFile), mode, a); }
  }

  // One loss is added by an operation that gives up, none by any other. It is the unsent tail of
  // the file that was attached.
  lemma LossPerAbort(s: State, op: Op)
    requires IsAllowed(s, op)
    ensures var s' := Do(s, op);
            if GivesUp(s, op)
            then s.file.Attached? && s'.losses == s.losses + [LossOf(s.open, GivenUp(s.file.copier, op.mode, op.answer))]
            else s'.losses == s.losses
  {
    if op.Writable? {
      var s1 := BufferPhase(s, op.n);
      assert s1.losses == s.losses && s1.file == s.file && s1.open == s.open;
      FilePhaseFields(s1, op.mode, op.answer);
      FinishOpen(FilePhase(s1, op.mode, op.answer));
    }
    hide BufferPhase, FilePhase, FinishPhase, SendOneChunk, IsAborting, Tail, LossOf, GivenUp, Sent;
  }

  ghost function AbortCount(ops: seq<Op>, states: seq<State>, k: nat): nat
    requires k <= |ops| && |states| == |ops| + 1
  {
    if k == 0 then 0
    else AbortCount(ops, states, k - 1) + if GivesUp(states[k - 1], ops[k - 1]) then 1 else 0
  }

  lemma {:induction false} LossesAreCounted(ops: seq<Op>, states: seq<State>, k: nat)
    requires IsRun(ops, states) && k <= |ops|
    ensures |states[k].losses| == AbortCount(ops, states, k)
  {
    if k > 0 {
      LossesAreCounted(ops, states, k - 1);
      assert IsAllowed(states[k - 1], ops[k - 1]) && states[k] == Do(states[k - 1], ops[k - 1]);
      LossPerAbort(states[k - 1], ops[k - 1]);
      hide Do, IsAllowed, GivesUp, IsRun;
    }
  }

  // ---------- What the operations alone say ----------

  predicate IsOpen(ops: seq<Op>) {
    forall i :: 0 <= i < |ops| ==> !ops[i].Shutdown? && !ops[i].Close?
  }

  predicate IsClosed(ops: seq<Op>) {
    exists i :: 0 <= i < |ops| && ops[i].Close?
  }

  // What a copier still has to send when it is handed over.
  function Unsent(c: Copier): seq<Byte> {
    if c.available && c.offset <= c.total <= |c.file| then c.file[c.offset..c.total] else []
  }

  // The bytes that operations hand over: data until the connection is shut down or closed, and files.
  function AcceptedBy(ops: seq<Op>): seq<Byte> {
    if ops == [] then []
    else
      var before := ops[..|ops| - 1];
      AcceptedBy(before) +
      match ops[|ops| - 1]
      case Send(data) => if IsOpen(before) then data else []
      case EnableZeroCopy(c, _) => Unsent(c)
      case _ => []
  }

  lemma WritableAcceptsNothing(s: State, op: Op)
    requires op.Writable? && IsAllowed(s, op)
    ensures Do(s, op).accepted == s.accepted && Do(s, op).conn == s.conn
  {
    hide BufferPhase, FilePhase, FinishPhase, GivesUpFile;
    BufferOpen(s, op.n);
    FileOpen(BufferPhase(s, op.n), op);
    FinishOpen(FilePhase(BufferPhase(s, op.n), op.mode, op.answer));
  }

  lemma AcceptsAsTold(s: State, op: Op, ops: seq<Op>)
    requires IsAllowed(s, op) && s.accepted == AcceptedBy(ops)
    requires (s.conn == Connected <==> IsOpen(ops)) && (s.conn == Disconnected <==> IsClosed(ops))
    ensures var s' := Do(s, op);
            && s'.accepted == AcceptedBy(ops + [op])
            && (s'.conn == Connected <==> IsOpen(ops + [op])) && (s'.conn == Disconnected <==> IsClosed(ops + [op]))
  {
    var all := ops + [op];
    assert all[..|all| - 1] == ops && all[|all| - 1] == op;
    assert IsOpen(all) <==> IsOpen(ops) && !op.Shutdown? && !op.Close?;
    assert IsClosed(all) <==> IsClosed(ops) || op.Close? by {
      if IsClosed(ops) {
        var i :| 0 <= i < |ops| && ops[i].Close?;
        assert all[i].Close?;
      }
    }
    if op.Writable? {
      WritableAcceptsNothing(s, op);
      hide Do;
    }
  }

  /** Everything accepted is what the operations handed over, in order, and the connection takes data
      exactly until the first shutdown or close. */
  lemma {:induction false} AcceptedIsTold(ops: seq<Op>, states: seq<State>, k: nat)
    requires IsRun(ops, states) && k <= |ops|
    ensures states[k].accepted == AcceptedBy(ops[..k])
    ensures states[k].conn == Connected <==> IsOpen(ops[..k])
    ensures states[k].conn == Disconnected <==> IsClosed(ops[..k])
  {
    hide Do, IsAllowed, AcceptedBy;
    if k == 0 {
      NothingAccepted();
    } else {
      AcceptedIsTold(ops, states, k - 1);
      AcceptsAsTold(states[k - 1], ops[k - 1], ops[..k - 1]);
      assert ops[..k - 1] + [ops[k - 1]] == ops[..k];
    }
  }

  lemma NothingAccepted()
    ensures AcceptedBy([]) == []
  {
  }

  /** In every run the accepted bytes are kept and lost stretches in turn, one lost stretch for each
      file given up, being the unsent tail of that file; and the bytes on the wire, in the buffer and
      in the unsent file tail are the kept stretches in order. Without an abort that is everything
      accepted. */
  lemma BytesAreConserved(ops: seq<Op>, states: seq<State>, k: nat)
    requires IsRun(ops, states) && k <= |ops|
    ensures var s := states[k];
            && AcceptedBy(ops[..k]) == AllBytes(s.losses) + s.open
            && s.wire + s.output + FileTail(s) == KeptBytes(s.losses) + s.open
            && |s.losses| == AbortCount(ops, states, k)
            && (forall i :: 0 <= i < |s.losses| ==> s.losses[i].lost == Tail(s.losses[i].copier))
            && (s.losses == [] ==> s.wire + s.output + FileTail(s) == AcceptedBy(ops[..k]))
  {
    RunKeepsInv(ops, states, k);
    LossesAreCounted(ops, states, k);
    AcceptedIsTold(ops, states, k);
    hide IsRun, AbortCount, AcceptedBy;
  }

  lemma {:induction false} FirstLoss(losses: seq<Loss>)
    requires losses != []
    ensures KeptBytes(losses) == losses[0].kept + KeptBytes(losses[1..])
    ensures AllBytes(losses) == losses[0].kept + (losses[0].lost + AllBytes(losses[1..]))
    decreases |losses|
  {
    hide KeptBytes, AllBytes;
    var n := |losses| - 1;
    var last := losses[n];
    AddLoss(losses[..n], last);
    assert losses == losses[..n] + [last];
    if n == 0 {
      NoLosses(losses[..n]);
      NoLosses(losses[1..]);
      assert last.lost + [] == last.lost;
    } else {
      var first := losses[0];
      FirstLoss(losses[..n]);
      AddLoss(losses[1..n], last);
      assert losses[..n][1..] == losses[1..n] && losses[1..] == losses[1..n] + [last];
      Assoc(first.kept, KeptBytes(losses[1..n]), last.kept);
      Assoc(first.lost, AllBytes(losses[1..n]), last.kept + last.lost);
      Assoc(first.kept, first.lost + AllBytes(losses[1..n]), last.kept + last.lost);
    }
  }

  /** The wire is a prefix of what was accepted exactly as long as it does not reach past the first
      loss, or happens to go on the way the lost bytes and what follows them do. */
  lemma WireIsPrefix(ops: seq<Op>, states: seq<State>, k: nat)
    requires IsRun(ops, states) && k <= |ops|
    ensures var s := states[k];
            s.wire <= AcceptedBy(ops[..k]) <==>
              || s.losses == []
              || |s.wire| <= |s.losses[0].kept|
              || s.wire[|s.losses[0].kept|..] <= s.losses[0].lost + AllBytes(s.losses[1..]) + s.open
    ensures var s := states[k];
            |s.losses| == 1 && s.open == [] ==> s.wire <= AcceptedBy(ops[..k])
  {
    BytesAreConserved(ops, states, k);
    AcceptedIsTold(ops, states, k);
    hide *;
    WireOfState(states[k]);
  }

  lemma WireOfState(s: State)
    requires s.accepted == AllBytes(s.losses) + s.open
    requires s.wire + s.output + FileTail(s) == KeptBytes(s.losses) + s.open
    requires s.losses == [] ==> s.wire + s.output + FileTail(s) == s.accepted
    ensures s.wire <= s.accepted <==>
              || s.losses == []
              || |s.wire| <= |s.losses[0].kept|
              || s.wire[|s.losses[0].kept|..] <= s.losses[0].lost + AllBytes(s.losses[1..]) + s.open
    ensures |s.losses| == 1 && s.open == [] ==> s.wire <= s.accepted
  {
    hide AllBytes, KeptBytes, FileTail;
    var rest := s.output + FileTail(s);
    Assoc(s.wire, s.output, FileTail(s));
    if s.losses != [] {
      var first, later := s.losses[0], s.losses[1..];
      FirstLoss(s.losses);
      Assoc(first.kept, KeptBytes(later), s.open);
      Assoc(first.kept, first.lost + AllBytes(later), s.open);
      SplitAtLoss(s.wire, rest, first.kept, KeptBytes(later) + s.open, first.lost + AllBytes(later) + s.open);
      if |s.losses| == 1 && s.open == [] {
        NoLosses(later);
        assert |s.wire| <= |s.wire + rest| == |first.kept|;
      }
    }
  }

  lemma NoLosses(losses: seq<Loss>)
    requires losses == []
    ensures KeptBytes(losses) == [] && AllBytes(losses) == []
  {
  }

  lemma SplitAtLoss(wire: seq<Byte>, rest: seq<Byte>, kept: seq<Byte>, later: seq<Byte>, other: seq<Byte>)
    requires wire + rest == kept + later
    ensures wire <= kept + other <==> |wire| <= |kept| || wire[|kept|..] <= other
  {
    var n := if |wire| <= |kept| then |wire| else |kept|;
    assert wire[..n] == (wire + rest)[..n] == (kept + later)[..n] == kept[..n];
    if |wire| <= |kept| {
      assert wire == kept[..n] && kept == kept[..n] + kept[n..];
      assert kept + other == wire + (kept[n..] + other);
    } else {
      assert wire == kept + wire[|kept|..];
      SameFront(kept, wire[|kept|..], other);
    }
  }

  // The operation gives a file up with bytes of it unsent.
  predicate LosesBytes(s: State, op: Op) {
    GivesUp(s, op) && s.file.Attached? && Tail(GivenUp(s.file.copier, op.mode, op.answer)) != []
  }

  // More was accepted after bytes had been lost.
  ghost predicate AcceptsAfterLoss(ops: seq<Op>, states: seq<State>, k: nat)
    requires |states| == |ops| + 1 && k <= |ops|
  {
    exists i, j :: 0 <= i < j < k && LosesBytes(states[i], ops[i]) && AcceptedBy(ops[..j + 1]) != AcceptedBy(ops[..j])
  }

  // Some step before k loses bytes.
  ghost predicate HasLost(ops: seq<Op>, states: seq<State>, k: nat)
    requires |states| == |ops| + 1 && k <= |ops|
  {
    exists i :: 0 <= i < k && LosesBytes(states[i], ops[i])
  }

  // Only the end of what was accepted can be missing.
  predicate OnlyEndIsLost(s: State, lost: bool) {
    if lost then s.open == [] && KeptBytes(s.losses) <= AllBytes(s.losses)
    else KeptBytes(s.losses) == AllBytes(s.losses)
  }

  // What one operation does to the losses and to what was accepted since.
  lemma OpenAfter(s: State, op: Op)
    requires IsAllowed(s, op)
    ensures var s' := Do(s, op);
            && s.accepted <= s'.accepted
            && (if GivesUp(s, op) then s'.open == [] && s'.accepted == s.accepted
                else s'.open == s.open + s'.accepted[|s.accepted|..])
  {
    if op.Writable? {
      hide BufferPhase, FilePhase, FinishPhase, GivesUp;
      if s.writing {
        BufferOpen(s, op.n);
        FileOpen(BufferPhase(s, op.n), op);
        FinishOpen(FilePhase(BufferPhase(s, op.n), op.mode, op.answer));
      }
      GivesUpInFilePhase(s, op);
    } else {
      hide Tail;
      assert s.open + [] == s.open;
    }
  }

  lemma BufferOpen(s: State, n: int)
    requires n <= |s.output|
    ensures var s' := BufferPhase(s, n); s'.open == s.open && s'.accepted == s.accepted && s'.conn == s.conn
  {
  }

  predicate GivesUpFile(s: State, op: Op)
    requires op.Writable?
  {
    s.output == [] && s.file.Attached? && s.sending != SendingBuffer && IsAborting(s.file.copier, op.mode, op.answer)
  }

  lemma GivesUpInFilePhase(s: State, op: Op)
    requires op.Writable? && op.n <= |s.output|
    ensures GivesUp(s, op) <==> s.writing && GivesUpFile(BufferPhase(s, op.n), op)
  {
  }

  lemma FileOpen(s: State, op: Op)
    requires op.Writable?
    ensures var s' := FilePhase(s, op.mode, op.answer);
            s'.accepted == s.accepted && s'.conn == s.conn && s'.open == if GivesUpFile(s, op) then [] else s.open
  {
    FilePhaseFields(s, op.mode, op.answer);
    hide FilePhase, SendOneChunk, IsAborting, LossOf, GivenUp, Sent;
  }

  lemma FinishOpen(s: State)
    ensures var s' := FinishPhase(s);
            s'.open == s.open && s'.accepted == s.accepted && s'.conn == s.conn && s'.losses == s.losses
  {
  }

  lemma OnlyEndStays(s: State, op: Op, lost: bool)
    requires Inv(s) && IsAllowed(s, op) && OnlyEndIsLost(s, lost)
    requires lost ==> Do(s, op).accepted == s.accepted
    ensures OnlyEndIsLost(Do(s, op), lost || LosesBytes(s, op))
  {
    LossPerAbort(s, op);
    OpenAfter(s, op);
    var s' := Do(s, op);
    if GivesUp(s, op) {
      var c := s.file.copier;
      var l := LossOf(s.open, GivenUp(c, op.mode, op.answer));
      AddLoss(s.losses, l);
      NoNewTail(s, op);
      hide Do, Inv, IsAllowed, GivesUp, KeptBytes, AllBytes, GivenUp, Tail;
      if !lost {
        assert KeptBytes(s'.losses) + l.lost == AllBytes(s'.losses) by { Assoc(KeptBytes(s.losses), l.kept, l.lost); }
      }
    }
  }

  // A file whose bytes are all accounted for in an empty stretch has none to lose.
  lemma NoNewTail(s: State, op: Op)
    requires Inv(s) && IsAllowed(s, op) && GivesUp(s, op) && s.file.Attached?
    ensures s.open == [] ==> Tail(GivenUp(s.file.copier, op.mode, op.answer)) == []
  {
    LastAttempt(s.file.copier, op.mode, op.chunk, op.answer);
    hide Sent, GivenUp, SendOneChunk;
  }

  lemma {:induction false} RunLosesOnlyEnd(ops: seq<Op>, states: seq<State>, k: nat)
    requires IsRun(ops, states) && k <= |ops| && !AcceptsAfterLoss(ops, states, k)
    ensures OnlyEndIsLost(states[k], HasLost(ops, states, k))
  {
    hide Do, IsAllowed, Inv, LosesBytes, OnlyEndIsLost;
    if k == 0 {
      NothingLostYet();
    } else {
      RunLosesOnlyEnd(ops, states, k - 1);
      RunKeepsInv(ops, states, k - 1);
      if HasLost(ops, states, k - 1) {
        var i :| 0 <= i < k - 1 && LosesBytes(states[i], ops[i]);
        AcceptedIsTold(ops, states, k);
        AcceptedIsTold(ops, states, k - 1);
        assert i < k - 1 < k && AcceptedBy(ops[..k - 1 + 1]) == AcceptedBy(ops[..k - 1]);
      }
      OnlyEndStays(states[k - 1], ops[k - 1], HasLost(ops, states, k - 1));
      LostSoFar(ops, states, k);
    }
  }

  lemma LostSoFar(ops: seq<Op>, states: seq<State>, k: nat)
    requires |states| == |ops| + 1 && 0 < k <= |ops|
    ensures HasLost(ops, states, k) <==> HasLost(ops, states, k - 1) || LosesBytes(states[k - 1], ops[k - 1])
  {
    hide LosesBytes;
    if HasLost(ops, states, k) && !LosesBytes(states[k - 1], ops[k - 1]) {
      var i :| 0 <= i < k && LosesBytes(states[i], ops[i]);
      assert i < k - 1;
    }
  }

  lemma NothingLostYet()
    ensures OnlyEndIsLost(INITIAL, false)
  {
  }

  /** As long as nothing is accepted after bytes were lost, whatever is lost is the end of what was
      accepted: the wire is a prefix of it. */
  lemma PrefixUntilAcceptedAgain(ops: seq<Op>, states: seq<State>, k: nat)
    requires IsRun(ops, states) && k <= |ops| && !AcceptsAfterLoss(ops, states, k)
    ensures states[k].wire <= AcceptedBy(ops[..k])
    ensures states[k].wire + states[k].output + FileTail(states[k]) <= AcceptedBy(ops[..k])
  {
    var s := states[k];
    BytesAreConserved(ops, states, k);
    RunLosesOnlyEnd(ops, states, k);
    hide IsRun, AcceptsAfterLoss, HasLost, AbortCount, KeptBytes, AllBytes, FileTail, Tail, AcceptedBy;
    assert KeptBytes(s.losses) + s.open <= AllBytes(s.losses) + s.open;
    Assoc(s.wire, s.output, FileTail(s));
  }

  /** Write interest, the buffer and the copier agree, and the sending state tells the truth. */
  lemma InterestIsExact(ops: seq<Op>, states: seq<State>, k: nat)
    requires IsRun(ops, states) && k <= |ops|
    ensures var s := states[k];
            && (s.conn != Disconnected ==> (s.writing <==> s.output != [] || s.file.Attached?))
            && (s.sending == SendingFile ==> s.file.Attached? && !HasFinished(s.file.copier))
  {
    RunKeepsInv(ops, states, k);
    hide IsRun, BytesAgree;
  }

  /** shutdown_write only happens when everything accepted is on the wire, lost files apart. */
  lemma ShutdownOnlyWhenDrained(ops: seq<Op>, states: seq<State>, k: nat)
    requires IsRun(ops, states) && k < |ops| && states[k + 1].shut && !states[k].shut
    ensures var s := states[k + 1];
            && s.output == [] && s.file.Nothing? && s.wire == KeptBytes(s.losses) + s.open
            && (s.losses == [] ==> s.wire == AcceptedBy(ops[..k + 1]))
  {
    RunKeepsInv(ops, states, k);
    BytesAreConserved(ops, states, k + 1);
    assert IsAllowed(states[k], ops[k]) && states[k + 1] == Do(states[k], ops[k]);
    DoKeepsInv(states[k], ops[k]);
    hide IsRun, Do, IsAllowed, AbortCount, KeptBytes, AllBytes, AcceptedBy;
    var s := states[k + 1];
    assert s.wire + [] + [] == s.wire;
  }

  // A disconnecting connection with nothing left to send has been shut down.
  predicate DrainedIsShut(s: State) {
    s.conn == Disconnecting && s.output == [] && s.file.Nothing? ==> s.shut
  }

  lemma FinishShuts(s: State)
    requires SendingAgrees(s) && (s.sending == NotSending <==> s.output == [] && s.file.Nothing?)
    ensures DrainedIsShut(FinishPhase(s))
  {
  }

  lemma DoKeepsShut(s: State, op: Op)
    requires Inv(s) && IsAllowed(s, op) && DrainedIsShut(s)
    ensures DrainedIsShut(Do(s, op))
  {
    if op.Writable? && s.writing {
      BufferPhaseKeeps(s, op.n);
      FilePhaseKeeps(BufferPhase(s, op.n), op.mode, op.chunk, op.answer);
      hide BufferPhase, FilePhase, FinishPhase, SendingAgrees, BytesAgree;
      FinishShuts(FilePhase(BufferPhase(s, op.n), op.mode, op.answer));
    } else {
      hide BytesAgree, SendingAgrees;
    }
  }

  /** As soon as a connection that is to be shut down has sent all it had, at the latest with the
      writable event that sends the last byte, it is shut down. */
  lemma {:induction false} ShutWhenDrained(ops: seq<Op>, states: seq<State>, k: nat)
    requires IsRun(ops, states) && k <= |ops|
    ensures states[k].conn == Disconnecting && states[k].output == [] && states[k].file.Nothing? ==> states[k].shut
    ensures DrainedIsShut(states[k])
  {
    if k > 0 {
      ShutWhenDrained(ops, states, k - 1);
      RunKeepsInv(ops, states, k - 1);
      hide Do, IsAllowed, Inv;
      DoKeepsShut(states[k - 1], ops[k - 1]);
    }
  }

  // The bytes of the attached file that a writable event sends, if it gets so far.
  function FileBytes(s: State, a: Answer): seq<Byte> {
    if s.file.Attached? && !HasFinished(s.file.copier) && a.Took? && s.file.copier.offset + a.n <= |s.file.copier.file|
    then s.file.copier.file[s.file.copier.offset..s.file.copier.offset + a.n]
    else []
  }

  lemma BufferBytes(s: State, n: int)
    requires SendingAgrees(s) && n <= |s.output|
    ensures var sent := if n < 0 then 0 else n;
            BufferPhase(s, n).wire == s.wire + s.output[..sent] && BufferPhase(s, n).output == s.output[sent..]
  {
    assert s.output[..0] == [] && s.output[0..] == s.output;
    assert s.wire + [] == s.wire;
  }

  lemma FilePhaseWire(s: State, mode: Mode, a: Answer)
    ensures FilePhase(s, mode, a).output == s.output
    ensures FilePhase(s, mode, a).wire ==
              if s.output == [] && s.file.Attached? && s.sending != SendingBuffer
              then s.wire + Sent(s.file.copier, mode, a) else s.wire
  {
    FilePhaseFields(s, mode, a);
    hide FilePhase, SendOneChunk, LossOf, GivenUp, Sent, IsAborting;
  }

  lemma SentIsFileBytes(s: State, mode: Mode, chunk: nat, a: Answer)
    requires s.file.Attached? && ZeroCopier.Inv(s.file.copier) && IsPossible(s.file.copier, chunk, a)
    ensures Sent(s.file.copier, mode, a) == FileBytes(s, a)
  {
    var c := s.file.copier;
    if !HasFinished(c) {
      AttemptOutcome(c, mode, a);
      assert c.file[c.offset..c.offset] == [];
    }
  }

  lemma FileSends(s: State, mode: Mode, chunk: nat, a: Answer)
    requires SendingAgrees(s) && (s.sending == SendingBuffer <==> s.output != [])
    requires s.file.Attached? ==> IsPossible(s.file.copier, chunk, a)
    ensures FilePhase(s, mode, a).wire == s.wire + (if s.output == [] then FileBytes(s, a) else [])
    ensures FilePhase(s, mode, a).output == s.output
  {
    FilePhaseWire(s, mode, a);
    if s.file.Attached? { SentIsFileBytes(s, mode, chunk, a); }
    assert s.file.Nothing? ==> FileBytes(s, a) == [];
    hide FilePhase, Sent, FileBytes, HasFinished, ZeroCopier.Inv, IsPossible;
    assert s.wire + [] == s.wire;
  }

  lemma FinishWire(s: State)
    ensures FinishPhase(s).wire == s.wire && FinishPhase(s).output == s.output
  {
  }

  /** A writable event puts on the wire what write(2) takes of the buffer and, once that is empty, what
      the kernel takes of the file, and nothing else. */
  lemma WritableSends(s: State, op: Op)
    requires Inv(s) && op.Writable? && IsAllowed(s, op) && s.writing
    ensures var s', sent := Do(s, op), if op.n < 0 then 0 else op.n;
            && s'.output == s.output[sent..]
            && s'.wire == s.wire + s.output[..sent] + (if sent == |s.output| then FileBytes(s, op.answer) else [])
  {
    BufferBytes(s, op.n);
    BufferPhaseKeeps(s, op.n);
    hide BufferPhase, FilePhase, FinishPhase, SendingAgrees, BytesAgree, WritingAgrees;
    var s1 := BufferPhase(s, op.n);
    FileSends(s1, op.mode, op.chunk, op.answer);
    FinishWire(FilePhase(s1, op.mode, op.answer));
    assert FileBytes(s1, op.answer) == FileBytes(s, op.answer);
    hide FileBytes, IsAllowed;
  }

  // ---------- Why the caller must keep off ----------

  /** Data sent while a file is under way wedges the connection: from then on every writable event,
      whatever the kernel answers, changes nothing at all. */
  lemma SendDuringFileWedges(s: State, data: seq<Byte>, mode: Mode, n: int, a: Answer)
    requires Inv(s) && s.conn == Connected && s.sending == SendingFile && data != []
    requires n <= |s.output + data|
    ensures var stuck := Do(s, Send(data));
            && stuck.output != [] && stuck.file.Attached? && stuck.writing
            && HandleSocketWritable(stuck, mode, n, a) == stuck
  {
  }

  lemma SameFront<T>(front: seq<T>, a: seq<T>, b: seq<T>)
    ensures front + a == front + b <==> a == b
    ensures front + a <= front + b <==> a <= b
  {
    if front + a <= front + b {
      assert a == (front + a)[|front|..] && b == (front + b)[|front|..];
    }
  }

  /** And data sent while a file is attached but not yet under way overtakes it: the order of
      acceptance survives exactly when data and file tail read the same either way round. */
  lemma SendOvertakesFile(s: State, data: seq<Byte>)
    requires Inv(s) && s.conn == Connected
    ensures var s1 := Do(s, Send(data));
            s1.wire + s1.output + FileTail(s1) == KeptBytes(s1.losses) + s1.open <==>
            data + FileTail(s) == FileTail(s) + data
  {
    var front, tail := s.wire + s.output, FileTail(s);
    hide KeptBytes, AllBytes, Tail;
    assert s.wire + (s.output + data) + tail == front + (data + tail);
    assert KeptBytes(s.losses) + (s.open + data) == KeptBytes(s.losses) + s.open + data;
    assert front + (tail + data) == front + tail + data;
    assert data == [] ==> s.output + data == s.output && s.open + data == s.open;
    SameFront(front, data + tail, tail + data);
  }

  /** A second file given to a connection replaces an attached one without a word: the bytes still
      add up exactly when nothing of the first was left to send. */
  lemma SecondFileReplacesFirst(s: State, c: Copier, fd: nat)
    requires Inv(s) && ZeroCopier.Inv(c)
    ensures var s1 := Do(s, EnableZeroCopy(c, fd));
            s1.wire + s1.output + FileTail(s1) == KeptBytes(s1.losses) + s1.open <==> FileTail(s) == []
  {
    hide KeptBytes, AllBytes, Tail;
    var front, first, second := s.wire + s.output, FileTail(s), Tail(c.(targetFd := fd, started := true));
    assert KeptBytes(s.losses) + (s.open + second) == front + (first + second) by {
      Assoc(KeptBytes(s.losses), s.open, second);
      Assoc(front, first, second);
    }
    SameFront(front, second, first + second);
    assert first == [] ==> first + second == second;
    assert |first + second| == |first| + |second|;
  }

  // ---------- A file is lost, and data follows ----------

  // A connection that was given a file and has seen f refusals.
  function AfterRefusals(file: seq<Byte>, f: nat): State {
    INITIAL.(sending := if f == 0 then NotSending else SendingFile, writing := true, accepted := file, open := file,
             file := Attached(Copier(file, true, 0, true, |file|, 0, f)))
  }

  const REFUSAL := Writable(ZeroCopy, 1, 0, Refused)

  lemma NothingBuffered(s: State)
    requires s.output == [] && s.sending != SendingBuffer
    ensures BufferPhase(s, 0) == s
  {
  }

  lemma RefusedChunk(file: seq<Byte>, f: nat)
    requires file != [] && f < MAX_TRIAL
    ensures var c := Copier(file, true, 0, true, |file|, 0, f);
            if f + 1 < MAX_TRIAL
            then FilePhase(AfterRefusals(file, f), ZeroCopy, Refused) == AfterRefusals(file, f + 1)
            else FilePhase(AfterRefusals(file, f), ZeroCopy, Refused) ==
                 INITIAL.(writing := true, accepted := file, losses := [LossOf(file, c)])
  {
    hide LossOf;
  }

  lemma Refusal(file: seq<Byte>, f: nat)
    requires file != [] && f < MAX_TRIAL
    ensures IsAllowed(AfterRefusals(file, f), REFUSAL)
    ensures Do(AfterRefusals(file, f), REFUSAL) ==
              if f + 1 < MAX_TRIAL then AfterRefusals(file, f + 1)
              else INITIAL.(accepted := file, losses := [LossOf(file, Copier(file, true, 0, true, |file|, 0, f))])
  {
    hide BufferPhase, FilePhase, LossOf;
    NothingBuffered(AfterRefusals(file, f));
    RefusedChunk(file, f);
  }

  lemma ExtendRun(ops: seq<Op>, states: seq<State>, op: Op)
    requires IsRun(ops, states) && IsAllowed(states[|ops|], op)
    ensures IsRun(ops + [op], states + [Do(states[|ops|], op)])
  {
    hide Do;
  }

  lemma {:induction false} RefusalRun(file: seq<Byte>, f: nat) returns (ops: seq<Op>, states: seq<State>)
    requires file != [] && f < MAX_TRIAL
    ensures IsRun(ops, states) && |states| == |ops| + 1 && states[|ops|] == AfterRefusals(file, f)
  {
    hide Do, IsAllowed, AfterRefusals;
    if f == 0 {
      var op := EnableZeroCopy(Copier(file, true, -1, false, |file|, 0, 0), 0);
      FileIsAttached(file, op);
      ops, states := [op], [INITIAL, AfterRefusals(file, 0)];
    } else {
      ops, states := RefusalRun(file, f - 1);
      Refusal(file, f - 1);
      ExtendRun(ops, states, REFUSAL);
      ops, states := ops + [REFUSAL], states + [AfterRefusals(file, f)];
    }
  }

  lemma FileIsAttached(file: seq<Byte>, op: Op)
    requires op == EnableZeroCopy(Copier(file, true, -1, false, |file|, 0, 0), 0) && file != []
    ensures IsAllowed(INITIAL, op) && Do(INITIAL, op) == AfterRefusals(file, 0)
  {
  }

  /** Once a file has been given up, data accepted later goes out in its place: a run after which the
      wire is the data alone, while file and data were accepted. */
  lemma DataReplacesLostFile(file: seq<Byte>, data: seq<Byte>) returns (ops: seq<Op>, states: seq<State>)
    requires file != [] && data != []
    ensures IsRun(ops, states) && |states| == |ops| + 1
    ensures states[|ops|].wire == data && AcceptedBy(ops) == file + data
  {
    ops, states := RefusalRun(file, MAX_TRIAL - 1);
    Refusal(file, MAX_TRIAL - 1);
    var gone := Do(AfterRefusals(file, MAX_TRIAL - 1), REFUSAL);
    assert gone == INITIAL.(accepted := file, losses := gone.losses);
    hide *;
    IdleSendGoesOut(gone, data);
    var sent, write := Do(gone, Send(data)), Writable(ZeroCopy, 1, |data|, Refused);
    ExtendRun(ops, states, REFUSAL);
    ops, states := ops + [REFUSAL], states + [gone];
    ExtendRun(ops, states, Send(data));
    ops, states := ops + [Send(data)], states + [sent];
    ExtendRun(ops, states, write);
    ops, states := ops + [write], states + [Do(sent, write)];
    AcceptedIsTold(ops, states, |ops|);
    assert ops[..|ops|] == ops;
  }

  lemma IdleSendGoesOut(s: State, data: seq<Byte>)
    requires s.conn == Connected && s.sending == NotSending && s.output == [] && s.file.Nothing? && data != []
    ensures IsAllowed(s, Send(data))
    ensures var s1, write := Do(s, Send(data)), Writable(ZeroCopy, 1, |data|, Refused);
            && IsAllowed(s1, write)
            && Do(s1, write).wire == s.wire + data && Do(s1, write).accepted == s.accepted + data
  {
    var s1 := Do(s, Send(data));
    assert s1.output == data && s1.output[..|data|] == data;
  }
}
