/** The asynchronous logger, flute/common/AsyncLogging.cc: frontends append to a current buffer, the
    backend swaps out the full ones, writes at most two of them and recycles what it wrote. A step is
    what runs between two lock releases, or what the backend does without the lock. */
module AsyncLogging {
  import opened Options

  const BUFFER_SIZE := 1000

  type Line = string

  // The lines a FixedBuffer holds, in the order they were copied in.
  type Buffer = seq<Line>

  datatype Record = Notice(dropped: nat) | Data(lines: Buffer)

  datatype Phase = Ready | Swapped | Written | Stopped

  datatype State = State(
    cur: Option<Buffer>,           // m_cur_buffer_ptr; None is a pointer moved from
    reserve: Option<Buffer>,
    used: seq<Buffer>,
    // locals of the backend
    phase: Phase,
    new1: Option<Buffer>,
    new2: Option<Buffer>,
    toWrite: seq<Buffer>,
    // an assertion failed or a null pointer was followed
    failed: bool,
    file: seq<Record>,
    // history
    appended: seq<Line>,
    batches: seq<seq<Buffer>>)

  datatype Step = Append(line: Line) | Swap | Write | Recycle | Stop

  // ---------- The code ----------

  function Size(b: Buffer): nat {
    if b == [] then 0 else Size(b[..|b| - 1]) + |b[|b| - 1]|
  }

  // FixedBuffer::append leaves a line out that would not leave a byte free.
  function Put(b: Buffer, line: Line): Buffer {
    if BUFFER_SIZE - Size(b) > |line| then b + [line] else b
  }

  function AppendLine(s: State, line: Line): State {
    if s.cur.None? then s.(failed := true)
    else if BUFFER_SIZE - Size(s.cur.value) > |line| then
      s.(cur := Some(Put(s.cur.value, line)), appended := s.appended + [line])
    else
      var next := if s.reserve.Some? then s.reserve.value else [];
      s.(used := s.used + [s.cur.value], reserve := None, cur := Some(Put(next, line)),
         appended := s.appended + [line])
  }

  predicate IsSpare(b: Option<Buffer>) {
    b.Some? && Size(b.value) == 0
  }

  function SwapBuffers(s: State): State {
    if !IsSpare(s.new1) || !IsSpare(s.new2) || s.toWrite != [] || s.cur.None? then s.(failed := true)
    else
      var batch := s.used + [s.cur.value];
      s.(phase := Swapped, cur := s.new1, new1 := None, used := [], toWrite := batch,
         batches := s.batches + [batch],
         reserve := if s.reserve.None? then s.new2 else s.reserve,
         new2 := if s.reserve.None? then None else s.new2)
  }

  function Records(buffers: seq<Buffer>): seq<Record> {
    if buffers == [] then [] else Records(buffers[..|buffers| - 1]) + [Data(buffers[|buffers| - 1])]
  }

  function Kept(batch: seq<Buffer>): seq<Buffer> {
    if |batch| > 2 then batch[..2] else batch
  }

  function RenderBatch(batch: seq<Buffer>): seq<Record> {
    (if |batch| > 2 then [Notice(|batch| - 2)] else []) + Records(Kept(batch))
  }

  function WriteBuffers(s: State): State {
    if s.toWrite == [] then s.(failed := true)
    else s.(phase := Written, file := s.file + RenderBatch(s.toWrite), toWrite := Kept(s.toWrite))
  }

  // One of the two spare buffers: kept, or taken from the back of buffers_to_write and reset.
  function Refill(spare: Option<Buffer>): Option<Buffer> {
    if spare.Some? then spare else Some([])
  }

  function Drained(spare: Option<Buffer>, buffers: seq<Buffer>): seq<Buffer> {
    if spare.Some? || buffers == [] then buffers else buffers[..|buffers| - 1]
  }

  predicate CanRefill(spare: Option<Buffer>, buffers: seq<Buffer>) {
    spare.Some? || buffers != []
  }

  function RecycleBuffers(s: State): State {
    if !CanRefill(s.new1, s.toWrite) || !CanRefill(s.new2, Drained(s.new1, s.toWrite)) then s.(failed := true)
    else s.(phase := Ready, new1 := Refill(s.new1), new2 := Refill(s.new2), toWrite := [])
  }

  predicate Enabled(s: State, step: Step) {
    match step
    case Append(_) => true
    case Swap => s.phase == Ready
    case Write => s.phase == Swapped
    case Recycle => s.phase == Written
    case Stop => s.phase == Ready
  }

  function Do(s: State, step: Step): State {
    match step
    case Append(line) => AppendLine(s, line)
    case Swap => SwapBuffers(s)
    case Write => WriteBuffers(s)
    case Recycle => RecycleBuffers(s)
    case Stop => s.(phase := Stopped)
  }

  function Start(): State {
    State(Some([]), Some([]), [], Ready, Some([]), Some([]), [], false, [], [], [])
  }

  ghost predicate IsRun(steps: seq<Step>, states: seq<State>) {
    && |states| == |steps| + 1 && states[0] == Start()
    && forall k :: 0 <= k < |steps| ==> Enabled(states[k], steps[k]) && states[k + 1] == Do(states[k], steps[k])
  }

  // ---------- What the log should hold ----------

  function Flatten<T>(ss: seq<seq<T>>): seq<T> {
    if ss == [] then [] else Flatten(ss[..|ss| - 1]) + ss[|ss| - 1]
  }

  // The lines that fit into a buffer at all.
  function ShortLines(lines: seq<Line>): seq<Line> {
    if lines == [] then []
    else ShortLines(lines[..|lines| - 1]) +
         if |lines[|lines| - 1]| < BUFFER_SIZE then [lines[|lines| - 1]] else []
  }

  function Render(batches: seq<seq<Buffer>>): seq<Record> {
    if batches == [] then [] else Render(batches[..|batches| - 1]) + RenderBatch(batches[|batches| - 1])
  }

  function WrittenBatches(s: State): seq<seq<Buffer>> {
    if s.phase == Swapped && s.batches != [] then s.batches[..|s.batches| - 1] else s.batches
  }

  // ---------- The invariant ----------

  predicate BuffersAreSound(s: State) {
    && !s.failed && s.cur.Some? && Size(s.cur.value) < BUFFER_SIZE
    && (s.reserve.Some? ==> s.reserve.value == [])
    && (s.reserve.None? ==> s.used != [])
  }

  predicate BackendIsSound(s: State) {
    match s.phase
    case Ready => s.new1 == Some([]) && s.new2 == Some([]) && s.toWrite == []
    case Stopped => true
    case _ =>
      && s.new1.None? && s.toWrite != []
      && (s.new2.Some? ==> s.new2.value == [])
      && (s.new2.None? ==> |s.toWrite| >= 2)
  }

  predicate LinesAgree(s: State) {
    s.cur.Some? && Flatten(Flatten(s.batches)) + Flatten(s.used) + s.cur.value == ShortLines(s.appended)
  }

  predicate FileAgrees(s: State) {
    && s.file == Render(WrittenBatches(s))
    && (s.phase == Swapped ==> s.batches != [] && s.toWrite == s.batches[|s.batches| - 1])
  }

  predicate Inv(s: State) {
    BuffersAreSound(s) && BackendIsSound(s) && LinesAgree(s) && FileAgrees(s)
  }

  // ---------- Every step keeps it ----------

  lemma AppendLast<T>(s: seq<T>, x: T)
    ensures (s + [x])[..|s + [x]| - 1] == s && (s + [x])[|s + [x]| - 1] == x
  {
  }

  lemma FlattenLast<T>(ss: seq<seq<T>>, x: seq<T>)
    ensures Flatten(ss + [x]) == Flatten(ss) + x
  {
    AppendLast(ss, x);
  }

  lemma ShortLast(lines: seq<Line>, x: Line)
    ensures ShortLines(lines + [x]) == ShortLines(lines) + if |x| < BUFFER_SIZE then [x] else []
  {
    AppendLast(lines, x);
  }

  lemma SizeLast(b: Buffer, line: Line)
    ensures Size(b + [line]) == Size(b) + |line|
  {
    AppendLast(b, line);
  }

  lemma PutFits(b: Buffer, line: Line)
    requires Size(b) < BUFFER_SIZE
    ensures Size(Put(b, line)) < BUFFER_SIZE
  {
    SizeLast(b, line);
  }

  lemma AppendKeepsBuffers(s: State, line: Line)
    requires BuffersAreSound(s)
    ensures BuffersAreSound(AppendLine(s, line))
  {
    hide Size, Put;
    PutFits(s.cur.value, line);
    EmptyIsSmall();
    PutFits([], line);
  }

  lemma EmptyIsSmall()
    ensures Size([]) == 0
  {
  }

  lemma AppendKeepsLines(s: State, line: Line)
    requires BuffersAreSound(s) && LinesAgree(s)
    ensures LinesAgree(AppendLine(s, line))
  {
    hide Flatten, ShortLines, Size;
    EmptyIsSmall();
    ShortLast(s.appended, line);
    FlattenLast(s.used, s.cur.value);
    var before := Flatten(Flatten(s.batches)) + Flatten(s.used);
    if BUFFER_SIZE - Size(s.cur.value) > |line| {
      assert before + (s.cur.value + [line]) == before + s.cur.value + [line];
    } else {
      assert Flatten(Flatten(s.batches)) + (Flatten(s.used) + s.cur.value) == before + s.cur.value;
    }
  }

  lemma {:induction false} FlattenConcat<T>(a: seq<seq<T>>, b: seq<seq<T>>)
    ensures Flatten(a + b) == Flatten(a) + Flatten(b)
    decreases |b|
  {
    if b == [] {
      assert a + b == a;
    } else {
      var n := |b| - 1;
      assert a + b == (a + b[..n]) + [b[n]];
      FlattenLast(a + b[..n], b[n]);
      FlattenConcat(a, b[..n]);
    }
  }

  lemma SwapKeepsLines(s: State)
    requires BuffersAreSound(s) && BackendIsSound(s) && s.phase == Ready && LinesAgree(s)
    ensures LinesAgree(SwapBuffers(s))
  {
    hide Flatten, ShortLines, Size;
    EmptyIsSmall();
    var batch := s.used + [s.cur.value];
    FlattenLast(s.used, s.cur.value);
    FlattenLast(s.batches, batch);
    FlattenConcat(Flatten(s.batches), batch);
    FlattenNothing<Line>();
    var all := Flatten(Flatten(s.batches + [batch]));
    assert all == Flatten(Flatten(s.batches)) + (Flatten(s.used) + s.cur.value);
    assert all + [] + [] == Flatten(Flatten(s.batches)) + Flatten(s.used) + s.cur.value;
  }

  lemma FlattenNothing<T>()
    ensures Flatten<T>([]) == []
  {
  }

  lemma SwapKeepsRest(s: State)
    requires BuffersAreSound(s) && BackendIsSound(s) && s.phase == Ready && FileAgrees(s)
    ensures BuffersAreSound(SwapBuffers(s)) && BackendIsSound(SwapBuffers(s)) && FileAgrees(SwapBuffers(s))
  {
    hide Render, Size;
    EmptyIsSmall();
    AppendLast(s.batches, s.used + [s.cur.value]);
  }

  lemma RenderLast(batches: seq<seq<Buffer>>)
    requires batches != []
    ensures Render(batches) == Render(batches[..|batches| - 1]) + RenderBatch(batches[|batches| - 1])
  {
  }

  lemma WriteKeepsInv(s: State)
    requires Inv(s) && s.phase == Swapped
    ensures Inv(WriteBuffers(s))
  {
    hide Render, RenderBatch, Flatten, ShortLines, Size;
    RenderLast(s.batches);
  }

  lemma RecycleKeepsInv(s: State)
    requires Inv(s) && s.phase == Written
    ensures Inv(RecycleBuffers(s))
  {
    hide Render, Flatten, ShortLines, Size;
  }

  lemma DoKeepsInv(s: State, step: Step)
    requires Inv(s) && Enabled(s, step)
    ensures Inv(Do(s, step))
  {
    hide Render, Flatten, ShortLines, Size, SwapBuffers, WriteBuffers, RecycleBuffers;
    match step
    case Append(line) =>
      AppendKeepsBuffers(s, line);
      AppendKeepsLines(s, line);
    case Swap =>
      SwapKeepsLines(s);
      SwapKeepsRest(s);
    case Write => WriteKeepsInv(s);
    case Recycle => RecycleKeepsInv(s);
    case Stop =>
  }

  // ---------- Every run ----------

  lemma StartIsSound()
    ensures Inv(Start())
  {
  }

  lemma {:induction false} RunKeepsInv(steps: seq<Step>, states: seq<State>, k: nat)
    requires IsRun(steps, states) && k < |states|
    ensures Inv(states[k])
  {
    hide Inv, Do, Enabled, Start;
    if k == 0 {
      StartIsSound();
    } else {
      RunKeepsInv(steps, states, k - 1);
      DoKeepsInv(states[k - 1], steps[k - 1]);
    }
  }

  // ---------- What the steps alone say ----------

  function LinesAppended(steps: seq<Step>): seq<Line> {
    if steps == [] then []
    else
      var last := steps[|steps| - 1];
      LinesAppended(steps[..|steps| - 1]) + if last.Append? then [last.line] else []
  }

  // The lines appended since the backend last swapped buffers.
  function SinceSwap(steps: seq<Step>): seq<Line> {
    if steps == [] then []
    else
      var before, last := SinceSwap(steps[..|steps| - 1]), steps[|steps| - 1];
      if last.Append? then before + [last.line] else if last.Swap? then [] else before
  }

  // Lines packed into buffers one after the other: into the last one if a byte stays free, and
  // otherwise into a new one, which an overlong line leaves empty.
  function Packed(lines: seq<Line>): (buffers: seq<Buffer>)
    ensures buffers != []
  {
    if lines == [] then [[]]
    else
      var before, line := Packed(lines[..|lines| - 1]), lines[|lines| - 1];
      var n := |before| - 1;
      if Size(before[n]) + |line| < 1000 then before[..n] + [before[n] + [line]]
      else before + [if |line| < 1000 then [line] else []]
  }

  // The batches swapped out, and those of them written.
  function BatchesOf(steps: seq<Step>): seq<seq<Buffer>> {
    if steps == [] then []
    else
      var before := steps[..|steps| - 1];
      BatchesOf(before) + if steps[|steps| - 1].Swap? then [Packed(SinceSwap(before))] else []
  }

  function WrittenOf(steps: seq<Step>): seq<seq<Buffer>> {
    if steps == [] then []
    else if steps[|steps| - 1].Write? then BatchesOf(steps[..|steps| - 1])
    else WrittenOf(steps[..|steps| - 1])
  }

  predicate IsTold(s: State, steps: seq<Step>) {
    && s.cur.Some? && s.used + [s.cur.value] == Packed(SinceSwap(steps))
    && s.appended == LinesAppended(steps) && s.batches == BatchesOf(steps) && WrittenBatches(s) == WrittenOf(steps)
  }

  lemma PackLast(lines: seq<Line>, line: Line)
    ensures var before := Packed(lines);
            var n := |before| - 1;
            Packed(lines + [line]) ==
              if Size(before[n]) + |line| < 1000 then before[..n] + [before[n] + [line]]
              else before + [if |line| < 1000 then [line] else []]
  {
    hide Size;
    AppendLast(lines, line);
  }

  lemma AppendPacks(s: State, line: Line, lines: seq<Line>)
    requires BuffersAreSound(s) && s.used + [s.cur.value] == Packed(lines)
    ensures var s' := AppendLine(s, line);
            s'.cur.Some? && s'.used + [s'.cur.value] == Packed(lines + [line]) && s'.appended == s.appended + [line]
  {
    hide Size, Packed;
    EmptyIsSmall();
    PackLast(lines, line);
    AppendLast(s.used, s.cur.value);
    if BUFFER_SIZE - Size(s.cur.value) <= |line| {
      assert [] + [line] == [line];
    }
  }

  lemma ToldLast(steps: seq<Step>, step: Step)
    ensures var all := steps + [step];
            && LinesAppended(all) == LinesAppended(steps) + (if step.Append? then [step.line] else [])
            && SinceSwap(all) == (if step.Append? then SinceSwap(steps) + [step.line]
                                  else if step.Swap? then [] else SinceSwap(steps))
            && BatchesOf(all) == BatchesOf(steps) + (if step.Swap? then [Packed(SinceSwap(steps))] else [])
            && WrittenOf(all) == (if step.Write? then BatchesOf(steps) else WrittenOf(steps))
  {
    hide Packed;
    AppendLast(steps, step);
  }

  lemma ToldStays(s: State, step: Step, steps: seq<Step>)
    requires Inv(s) && Enabled(s, step) && IsTold(s, steps)
    ensures IsTold(Do(s, step), steps + [step])
  {
    hide LinesAgree, FileAgrees, Size, Packed, LinesAppended, SinceSwap, BatchesOf, WrittenOf;
    ToldLast(steps, step);
    EmptyIsSmall();
    match step
    case Append(line) => AppendPacks(s, line, SinceSwap(steps));
    case Swap =>
      AppendLast(s.batches, s.used + [s.cur.value]);
      PackedNothing();
    case Write =>
    case Recycle =>
    case Stop =>
  }

  lemma PackedNothing()
    ensures Packed([]) == [[]]
  {
  }

  /** Buffers, batches and file contents are what the steps alone say: the lines since the last swap
      are packed into full buffers and the current one, and each batch is what was packed at its swap. */
  lemma {:induction false} RunIsTold(steps: seq<Step>, states: seq<State>, k: nat)
    requires IsRun(steps, states) && k < |states|
    ensures IsTold(states[k], steps[..k])
  {
    hide Inv, Do, Enabled, IsTold;
    if k == 0 {
      StartIsTold();
    } else {
      RunIsTold(steps, states, k - 1);
      RunKeepsInv(steps, states, k - 1);
      ToldStays(states[k - 1], steps[k - 1], steps[..k - 1]);
      assert steps[..k - 1] + [steps[k - 1]] == steps[..k];
    }
  }

  lemma StartIsTold()
    ensures IsTold(Start(), [])
  {
  }

  // No assertion of the backend fails, no moved-from pointer is followed, and whenever the reserve is
  // missing a full buffer is waiting, which is why there is always one to recycle in its place.
  lemma NothingFails(steps: seq<Step>, states: seq<State>, k: nat)
    requires IsRun(steps, states) && k < |states|
    ensures !states[k].failed && states[k].cur.Some?
    ensures states[k].reserve.None? ==> states[k].used != []
  {
    RunKeepsInv(steps, states, k);
  }

  function LinesOf(file: seq<Record>): seq<Line> {
    if file == [] then []
    else LinesOf(file[..|file| - 1]) +
         match file[|file| - 1] { case Notice(_) => [] case Data(lines) => lines }
  }

  function Announced(file: seq<Record>): nat {
    if file == [] then 0
    else Announced(file[..|file| - 1]) +
         match file[|file| - 1] { case Notice(n) => n case Data(_) => 0 }
  }

  function Rest(batch: seq<Buffer>): seq<Buffer> {
    if |batch| > 2 then batch[2..] else []
  }

  // The buffers of each batch that are thrown away: all but the first two.
  function Dropped(batches: seq<seq<Buffer>>): seq<Buffer> {
    if batches == [] then [] else Dropped(batches[..|batches| - 1]) + Rest(batches[|batches| - 1])
  }

  function KeptBuffers(batches: seq<seq<Buffer>>): seq<Buffer> {
    if batches == [] then [] else KeptBuffers(batches[..|batches| - 1]) + Kept(batches[|batches| - 1])
  }

  lemma RecordLast(file: seq<Record>, r: Record)
    ensures LinesOf(file + [r]) == LinesOf(file) + match r { case Notice(_) => [] case Data(lines) => lines }
    ensures Announced(file + [r]) == Announced(file) + match r { case Notice(n) => n case Data(_) => 0 }
  {
    AppendLast(file, r);
  }

  lemma {:induction false} RecordsAdd(file: seq<Record>, buffers: seq<Buffer>)
    ensures LinesOf(file + Records(buffers)) == LinesOf(file) + Flatten(buffers)
    ensures Announced(file + Records(buffers)) == Announced(file)
    decreases |buffers|
  {
    hide LinesOf, Announced;
    if buffers == [] {
      assert file + [] == file;
    } else {
      var n := |buffers| - 1;
      RecordsAdd(file, buffers[..n]);
      assert file + Records(buffers) == (file + Records(buffers[..n])) + [Data(buffers[n])];
      RecordLast(file + Records(buffers[..n]), Data(buffers[n]));
    }
  }

  lemma BatchAdds(file: seq<Record>, batch: seq<Buffer>)
    ensures LinesOf(file + RenderBatch(batch)) == LinesOf(file) + Flatten(Kept(batch))
    ensures Announced(file + RenderBatch(batch)) == Announced(file) + if |batch| > 2 then |batch| - 2 else 0
  {
    hide LinesOf, Announced, Records, Flatten;
    if |batch| > 2 {
      RecordLast(file, Notice(|batch| - 2));
      RecordsAdd(file + [Notice(|batch| - 2)], Kept(batch));
      assert file + RenderBatch(batch) == file + [Notice(|batch| - 2)] + Records(Kept(batch));
    } else {
      RecordsAdd(file, Kept(batch));
      assert file + RenderBatch(batch) == file + Records(Kept(batch));
    }
  }

  lemma {:induction false} RenderKeeps(batches: seq<seq<Buffer>>)
    ensures LinesOf(Render(batches)) == Flatten(KeptBuffers(batches))
    ensures Announced(Render(batches)) == |Dropped(batches)|
    decreases |batches|
  {
    hide LinesOf, Announced, RenderBatch, Kept;
    if batches == [] {
      FlattenNothing<Line>();
      assert LinesOf([]) == [] && Announced([]) == 0 by { NoRecords(); }
    } else {
      var n := |batches| - 1;
      RenderKeeps(batches[..n]);
      BatchAdds(Render(batches[..n]), batches[n]);
      FlattenConcat(KeptBuffers(batches[..n]), Kept(batches[n]));
    }
  }

  lemma NoRecords()
    ensures LinesOf([]) == [] && Announced([]) == 0
  {
  }

  // Keeping everything is the same as dropping no line.
  lemma {:induction false} KeptAndDropped(batches: seq<seq<Buffer>>)
    ensures |Flatten(Flatten(batches))| == |Flatten(KeptBuffers(batches))| + |Flatten(Dropped(batches))|
    ensures Flatten(Dropped(batches)) == [] ==> Flatten(Flatten(batches)) == Flatten(KeptBuffers(batches))
    decreases |batches|
  {
    if batches == [] {
      FlattenNothing<Line>();
      FlattenNothing<Buffer>();
    } else {
      hide *;
      var n := |batches| - 1;
      KeptAndDropped(batches[..n]);
      FlattenTwice(batches);
      BatchSplits(batches[n]);
      PartsAdd(Flatten(Flatten(batches[..n])), Flatten(KeptBuffers(batches[..n])), Flatten(Dropped(batches[..n])),
               Flatten(Kept(batches[n])), Flatten(Rest(batches[n])));
    }
  }

  lemma PartsAdd<T>(all: seq<T>, kept: seq<T>, dropped: seq<T>, k: seq<T>, d: seq<T>)
    requires |all| == |kept| + |dropped| && (dropped == [] ==> all == kept)
    ensures |all + (k + d)| == |kept + k| + |dropped + d|
    ensures dropped + d == [] ==> all + (k + d) == kept + k
  {
  }

  lemma FlattenTwice(batches: seq<seq<Buffer>>)
    requires batches != []
    ensures var n := |batches| - 1;
            && Flatten(Flatten(batches)) == Flatten(Flatten(batches[..n])) + Flatten(batches[n])
            && Flatten(KeptBuffers(batches)) == Flatten(KeptBuffers(batches[..n])) + Flatten(Kept(batches[n]))
            && Flatten(Dropped(batches)) == Flatten(Dropped(batches[..n])) + Flatten(Rest(batches[n]))
  {
    var n := |batches| - 1;
    FlattenConcat(Flatten(batches[..n]), batches[n]);
    FlattenConcat(KeptBuffers(batches[..n]), Kept(batches[n]));
    FlattenConcat(Dropped(batches[..n]), Rest(batches[n]));
  }

  lemma BatchSplits(batch: seq<Buffer>)
    ensures Flatten(batch) == Flatten(Kept(batch)) + Flatten(Rest(batch))
  {
    assert Kept(batch) + Rest(batch) == batch;
    FlattenConcat(Kept(batch), Rest(batch));
  }

  // The file holds the lines of the first two buffers of every batch written, in order, and says how
  // many buffers were left out.
  lemma FileHoldsKeptBuffers(steps: seq<Step>, states: seq<State>, k: nat)
    requires IsRun(steps, states) && k < |states|
    ensures states[k].file == Render(WrittenOf(steps[..k]))
    ensures LinesOf(states[k].file) == Flatten(KeptBuffers(WrittenOf(steps[..k])))
    ensures Announced(states[k].file) == |Dropped(WrittenOf(steps[..k]))|
  {
    hide LinesOf, Announced, Flatten, KeptBuffers, Dropped, Render, WrittenBatches, WrittenOf, BatchesOf;
    RunKeepsInv(steps, states, k);
    RunIsTold(steps, states, k);
    RenderKeeps(WrittenBatches(states[k]));
  }

  // The lines not yet written: the batch in hand, the full buffers and the current one.
  function InMemory(s: State): seq<Line> {
    (if s.phase == Swapped then Flatten(s.toWrite) else []) + Flatten(s.used) +
    if s.cur.Some? then s.cur.value else []
  }

  // File and memory together are the short lines appended, in order, unless a line was in a dropped buffer.
  lemma FileAndMemory(steps: seq<Step>, states: seq<State>, k: nat)
    requires IsRun(steps, states) && k < |states|
    ensures LinesOf(states[k].file) + InMemory(states[k]) == ShortLines(LinesAppended(steps[..k]))
       <==> Flatten(Dropped(WrittenOf(steps[..k]))) == []
  {
    RunKeepsInv(steps, states, k);
    RunIsTold(steps, states, k);
    FileHoldsKeptBuffers(steps, states, k);
    hide LinesOf, Announced, Flatten, KeptBuffers, Dropped, Render, ShortLines, BuffersAreSound, BackendIsSound;
    hide LinesAppended, WrittenOf, BatchesOf, SinceSwap, Packed;
    var s := states[k];
    KeptAndDropped(WrittenBatches(s));
    HandAndWritten(s);
    var kept := Flatten(KeptBuffers(WrittenBatches(s)));
    assert |kept + InMemory(s)| == |kept| + |InMemory(s)|;
  }

  // Three lines of at least half a buffer each, arriving between two swaps, are enough to lose the third.
  lemma ThirdBufferIsLost(a: Line, b: Line, c: Line) returns (steps: seq<Step>, states: seq<State>)
    requires BUFFER_SIZE / 2 <= |a| < BUFFER_SIZE && BUFFER_SIZE / 2 <= |b| < BUFFER_SIZE
    requires BUFFER_SIZE / 2 <= |c| < BUFFER_SIZE
    ensures IsRun(steps, states) && |states| == 6
    ensures states[5].file == [Notice(1), Data([a]), Data([b])] && InMemory(states[5]) == []
  {
    hide Size, Records, Put;
    EmptyIsSmall();
    SizeOfOne(a);
    SizeOfOne(b);
    SizeOfOne(c);
    steps := [Append(a), Append(b), Append(c), Swap, Write];
    var s1 := Do(Start(), Append(a));
    assert s1.cur == Some([a]);
    var s2 := Do(s1, Append(b));
    assert s2.used == [[a]] && s2.cur == Some([b]);
    var s3 := Do(s2, Append(c));
    assert s3.used == [[a], [b]] && s3.cur == Some([c]);
    var s4 := Do(s3, Swap);
    assert s4.toWrite == [[a], [b], [c]];
    var s5 := Do(s4, Write);
    assert Kept(s4.toWrite) == [[a], [b]];
    TwoRecords([a], [b]);
    states := [Start(), s1, s2, s3, s4, s5];
  }

  lemma SizeOfOne(line: Line)
    requires |line| < BUFFER_SIZE
    ensures Size([line]) == |line| && Put([], line) == [line]
  {
    SizeLast([], line);
    assert [] + [line] == [line];
  }

  lemma TwoRecords(a: Buffer, b: Buffer)
    ensures Records([a, b]) == [Data(a), Data(b)]
  {
    AppendLast([a], b);
    assert [a, b] == [a] + [b];
    assert Records([a]) == [Data(a)];
  }

  lemma HandAndWritten(s: State)
    requires Inv(s)
    ensures Flatten(Flatten(WrittenBatches(s))) + InMemory(s)
         == Flatten(Flatten(s.batches)) + Flatten(s.used) + s.cur.value
  {
    hide Flatten, ShortLines, Render, Size;
    if s.phase == Swapped {
      var n := |s.batches| - 1;
      assert s.batches == s.batches[..n] + [s.toWrite];
      FlattenLast(s.batches[..n], s.toWrite);
      FlattenConcat(Flatten(s.batches[..n]), s.toWrite);
    }
  }
}
