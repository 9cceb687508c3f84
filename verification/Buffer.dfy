/** The growable byte buffer, flute/net/Buffer.h and Buffer.cc: an array with a read and a write
    index, which stands for the byte string between them. */
module Buffers {
  import opened Bytes

  const CHEAP_PREPEND: nat := 8
  const INITIAL_SIZE: nat := 1024
  const EXTRABUF_SIZE: nat := 65536

  // The public operations. Read is read_all_from: n of the bytes the descriptor has to offer.
  // MarkWritten is mark_written after the caller has put data at write_base().
  datatype Op =
    | Append(data: seq<Byte>)
    | Prepend(data: seq<Byte>)
    | Retrieve(len: nat)
    | RetrieveAll
    | Unwrite(len: nat)
    | MarkWritten(data: seq<Byte>)
    | Shrink(reserve: nat)
    | EnsureWritable(len: nat)
    | Read(offered: seq<Byte>, n: nat)

  // What each means for a plain byte string.
  function Apply(s: seq<Byte>, op: Op): seq<Byte> {
    match op
    case Append(data) => s + data
    case Prepend(data) => data + s
    case Retrieve(len) => if len <= |s| then s[len..] else s
    case RetrieveAll => []
    case Unwrite(len) => if len <= |s| then s[..|s| - len] else s
    case MarkWritten(data) => s + data
    case Shrink(_) => s
    case EnsureWritable(_) => s
    case Read(offered, n) => if n <= |offered| then s + offered[..n] else s
  }

  // ---------- Where the bytes lie ----------

  datatype Layout = Layout(size: nat, read: nat, write: nat)

  predicate IsLayout(l: Layout) {
    l.read <= l.write <= l.size && CHEAP_PREPEND <= l.size
  }

  function Fresh(initialSize: nat): Layout {
    Layout(CHEAP_PREPEND + initialSize, CHEAP_PREPEND, CHEAP_PREPEND)
  }

  function AfterEnsure(l: Layout, len: nat): Layout
    requires IsLayout(l)
  {
    if len <= l.size - l.write then l
    else if l.size - l.write + l.read < len + CHEAP_PREPEND then l.(size := l.write + len)
    else l.(read := CHEAP_PREPEND, write := CHEAP_PREPEND + l.write - l.read)
  }

  function AfterAppend(l: Layout, len: nat): Layout
    requires IsLayout(l)
  {
    var room := AfterEnsure(l, len);
    room.(write := room.write + len)
  }

  function AfterShrink(l: Layout, reserve: nat): Layout
    requires IsLayout(l)
  {
    AfterAppend(AfterEnsure(Fresh(INITIAL_SIZE), l.write - l.read + reserve), l.write - l.read)
  }

  function AfterRead(l: Layout, n: nat): Layout
    requires IsLayout(l)
  {
    if n <= l.size - l.write then l.(write := l.write + n)
    else AfterAppend(l.(write := l.size), n - (l.size - l.write))
  }

  // The most one readv call of read_all_from can take.
  function ReadCapacity(l: Layout): nat
    requires IsLayout(l)
  {
    l.size - l.write + if l.size - l.write < EXTRABUF_SIZE then EXTRABUF_SIZE else 0
  }

  // The assertions of an operation.
  predicate IsAllowed(l: Layout, op: Op)
    requires IsLayout(l)
  {
    match op
    case Prepend(data) => |data| <= l.read
    case Retrieve(len) => len <= l.write - l.read
    case Unwrite(len) => len <= l.write - l.read
    case MarkWritten(data) => |data| <= l.size - l.write
    case Read(offered, n) => n <= |offered| && n <= ReadCapacity(l)
    case _ => true
  }

  function Move(l: Layout, op: Op): Layout
    requires IsLayout(l) && IsAllowed(l, op)
  {
    match op
    case Append(data) => AfterAppend(l, |data|)
    case Prepend(data) => l.(read := l.read - |data|)
    case Retrieve(len) => if len < l.write - l.read then l.(read := l.read + len) else l.(read := CHEAP_PREPEND, write := CHEAP_PREPEND)
    case RetrieveAll => l.(read := CHEAP_PREPEND, write := CHEAP_PREPEND)
    case Unwrite(len) => l.(write := l.write - len)
    case MarkWritten(data) => l.(write := l.write + |data|)
    case Shrink(reserve) => AfterShrink(l, reserve)
    case EnsureWritable(len) => AfterEnsure(l, len)
    case Read(_, n) => AfterRead(l, n)
  }

  lemma MoveKeepsLayout(l: Layout, op: Op)
    requires IsLayout(l) && IsAllowed(l, op)
    ensures IsLayout(Move(l, op))
  {
  }

  // The contents, the layout, and which of the operations were carried out.
  datatype Trace = Trace(bytes: seq<Byte>, layout: Layout, done: seq<bool>)

  function Run(bytes: seq<Byte>, layout: Layout, ops: seq<Op>): (t: Trace)
    requires IsLayout(layout)
    ensures IsLayout(t.layout) && |t.done| == |ops|
  {
    if ops == [] then Trace(bytes, layout, [])
    else
      var n := |ops| - 1;
      var t := Run(bytes, layout, ops[..n]);
      if IsAllowed(t.layout, ops[n]) then
        MoveKeepsLayout(t.layout, ops[n]);
        Trace(Apply(t.bytes, ops[n]), Move(t.layout, ops[n]), t.done + [true])
      else t.(done := t.done + [false])
  }

  lemma MoveKeepsFront(l: Layout, op: Op)
    requires IsLayout(l) && IsAllowed(l, op) && CHEAP_PREPEND <= l.read && !op.Prepend?
    ensures CHEAP_PREPEND <= Move(l, op).read
  {
  }

  /** What kCheapPrepend promises: as long as nothing has been prepended, eight bytes can be. */
  lemma {:induction false} PrependIsCheap(bytes: seq<Byte>, layout: Layout, ops: seq<Op>)
    requires IsLayout(layout) && CHEAP_PREPEND <= layout.read
    requires forall i :: 0 <= i < |ops| ==> !ops[i].Prepend?
    ensures CHEAP_PREPEND <= Run(bytes, layout, ops).layout.read
    ensures forall data: seq<Byte> :: |data| <= CHEAP_PREPEND ==> IsAllowed(Run(bytes, layout, ops).layout, Prepend(data))
    decreases |ops|
  {
    hide Move, Apply;
    if ops != [] {
      var n := |ops| - 1;
      PrependIsCheap(bytes, layout, ops[..n]);
      var t := Run(bytes, layout, ops[..n]);
      if IsAllowed(t.layout, ops[n]) { MoveKeepsFront(t.layout, ops[n]); }
    }
  }

  /** Shrinking leaves the room that was asked for. */
  lemma ShrinkLeavesRoom(l: Layout, reserve: nat)
    requires IsLayout(l)
    ensures var l' := Move(l, Shrink(reserve));
            reserve <= l'.size - l'.write && l'.write - l'.read == l.write - l.read && l'.read == CHEAP_PREPEND
  {
  }

  /** A call of read_all_from always has room for the 64 KiB of its second segment. */
  lemma ReadHasRoom(l: Layout, offered: seq<Byte>, n: nat)
    requires IsLayout(l) && n <= |offered| && n <= EXTRABUF_SIZE
    ensures IsAllowed(l, Read(offered, n))
  {
  }

  class Buffer {
    var store: array<Byte>
    var readIdx: nat
    var writeIdx: nat

    ghost predicate Valid()
      reads this
    {
      readIdx <= writeIdx <= store.Length && CHEAP_PREPEND <= store.Length
    }

    function Where(): Layout
      reads this
    {
      Layout(store.Length, readIdx, writeIdx)
    }

    ghost function Contents(): seq<Byte>
      requires Valid()
      reads this, store
    {
      store[readIdx..writeIdx]
    }

    constructor (initialSize: nat)
      ensures Valid() && fresh(store) && Contents() == [] && Where() == Fresh(initialSize)
    {
      store := new Byte[CHEAP_PREPEND + initialSize];
      readIdx, writeIdx := CHEAP_PREPEND, CHEAP_PREPEND;
    }

    function WritableLen(): nat
      requires Valid()
      reads this
    {
      store.Length - writeIdx
    }

    // std::copy of data to store + at.
    method CopyIn(data: seq<Byte>, at: nat)
      requires at + |data| <= store.Length
      modifies store
      ensures store[..at] == old(store[..at]) && store[at..at + |data|] == data
      ensures store[at + |data|..] == old(store[at + |data|..])
    {
      for i := 0 to |data|
        invariant store[..at] == old(store[..at]) && store[at..at + i] == data[..i]
        invariant store[at + i..] == old(store[at + i..])
      {
        store[at + i] := data[i];
      }
    }

    // Bytes put at the write index and marked written.
    method WriteBytes(data: seq<Byte>)
      requires Valid() && |data| <= WritableLen()
      modifies this`writeIdx, store
      ensures Valid() && Contents() == old(Contents()) + data
      ensures Where() == old(Where()).(write := old(writeIdx) + |data|)
    {
      CopyIn(data, writeIdx);
      assert store[readIdx..writeIdx] == store[..writeIdx][readIdx..];
      assert store[readIdx..writeIdx + |data|] == store[readIdx..writeIdx] + store[writeIdx..writeIdx + |data|];
      writeIdx := writeIdx + |data|;
    }

    // m_buffer.resize(size), for a larger size.
    method Grow(size: nat)
      requires Valid() && store.Length <= size
      modifies this`store
      ensures fresh(store) && Valid() && Contents() == old(Contents()) && Where() == old(Where()).(size := size)
    {
      var larger := new Byte[size];
      forall i | 0 <= i < store.Length { larger[i] := store[i]; }
      assert larger[readIdx..writeIdx] == store[readIdx..writeIdx];
      store := larger;
    }

    // std::copy of the contents down to kCheapPrepend; the ranges may overlap.
    method MoveToFront()
      requires Valid() && CHEAP_PREPEND < readIdx
      modifies this`readIdx, this`writeIdx, store
      ensures Valid() && Contents() == old(Contents())
      ensures readIdx == CHEAP_PREPEND && writeIdx == CHEAP_PREPEND + old(writeIdx - readIdx)
    {
      var readable := writeIdx - readIdx;
      for i := 0 to readable
        invariant unchanged(this)
        invariant store[CHEAP_PREPEND..CHEAP_PREPEND + i] == old(Contents())[..i]
        invariant store[readIdx + i..writeIdx] == old(Contents())[i..]
      {
        assert store[readIdx + i] == store[readIdx + i..writeIdx][0] == old(Contents())[i];
        store[CHEAP_PREPEND + i] := store[readIdx + i];
      }
      readIdx := CHEAP_PREPEND;
      writeIdx := readIdx + readable;
    }

    method MakeSpace(len: nat)
      requires Valid() && WritableLen() < len
      modifies this, store
      ensures Valid() && (store == old(store) || fresh(store))
      ensures Contents() == old(Contents()) && WritableLen() >= len && Where() == AfterEnsure(old(Where()), len)
    {
      if WritableLen() + readIdx < len + CHEAP_PREPEND {
        Grow(writeIdx + len);
      } else {
        // the code's assertion
        assert CHEAP_PREPEND < readIdx;
        MoveToFront();
      }
    }

    method EnsureWritableLen(len: nat)
      requires Valid()
      modifies this, store
      ensures Valid() && (store == old(store) || fresh(store))
      ensures Contents() == old(Contents()) && WritableLen() >= len && Where() == AfterEnsure(old(Where()), len)
    {
      if WritableLen() < len {
        MakeSpace(len);
      }
    }

    method AppendBytes(data: seq<Byte>)
      requires Valid()
      modifies this, store
      ensures Valid() && (store == old(store) || fresh(store))
      ensures Contents() == old(Contents()) + data && Where() == AfterAppend(old(Where()), |data|)
    {
      EnsureWritableLen(|data|);
      WriteBytes(data);
    }

    method RetrieveBytes(len: nat)
      requires Valid() && len <= |Contents()|
      modifies this`readIdx, this`writeIdx
      ensures Valid() && Contents() == old(Contents())[len..]
      ensures Where() == Move(old(Where()), Retrieve(len))
    {
      if len < writeIdx - readIdx {
        readIdx := readIdx + len;
      } else {
        RetrieveAllBytes();
      }
    }

    method RetrieveAllBytes()
      requires Valid()
      modifies this`readIdx, this`writeIdx
      ensures Valid() && Contents() == [] && Where() == Move(old(Where()), RetrieveAll)
    {
      readIdx, writeIdx := CHEAP_PREPEND, CHEAP_PREPEND;
    }

    method UnwriteBytes(len: nat)
      requires Valid() && len <= |Contents()|
      modifies this`writeIdx
      ensures Valid() && Contents() == old(Contents())[..|old(Contents())| - len]
      ensures Where() == Move(old(Where()), Unwrite(len))
    {
      writeIdx := writeIdx - len;
    }

    method PrependBytes(data: seq<Byte>)
      requires Valid() && |data| <= readIdx
      modifies this`readIdx, store
      ensures Valid() && Contents() == data + old(Contents()) && Where() == Move(old(Where()), Prepend(data))
    {
      ghost var n, tail := writeIdx - readIdx, store[readIdx..];
      assert tail[..n] == Contents();
      readIdx := readIdx - |data|;
      CopyIn(data, readIdx);
      assert store[readIdx + |data|..] == tail;
      assert store[readIdx..writeIdx] == store[readIdx..readIdx + |data|] + store[readIdx + |data|..][..n];
    }

    method ShrinkTo(reserve: nat)
      requires Valid()
      modifies this
      ensures Valid() && fresh(store) && Contents() == old(Contents()) && Where() == AfterShrink(old(Where()), reserve)
    {
      var other := new Buffer(INITIAL_SIZE);
      other.EnsureWritableLen(writeIdx - readIdx + reserve);
      other.AppendBytes(store[readIdx..writeIdx]);
      store, readIdx, writeIdx := other.store, other.readIdx, other.writeIdx;
    }

    // read_all_from: readv scatters n bytes over the writable part and then extrabuf; n < 0 is an error.
    method ReadAllFrom(offered: seq<Byte>, n: int)
      requires Valid() && n <= |offered| && n <= ReadCapacity(Where())
      modifies this, store
      ensures Valid() && (store == old(store) || fresh(store))
      ensures Contents() == old(Contents()) + (if n < 0 then [] else offered[..n])
      ensures Where() == if n < 0 then old(Where()) else AfterRead(old(Where()), n)
    {
      if n < 0 { return; }
      var writable := WritableLen();
      if n <= writable {
        WriteBytes(offered[..n]);
      } else {
        // readv filled the array and went on into extrabuf
        WriteBytes(offered[..writable]);
        var extrabuf := offered[writable..n];
        AppendBytes(extrabuf);
        assert offered[..writable] + extrabuf == offered[..n];
      }
    }

    method AppendIntNet(x: int, w: nat)
      requires Valid()
      modifies this, store
      ensures Valid() && (store == old(store) || fresh(store))
      ensures Contents() == old(Contents()) + EncodeInt(x, w)
    {
      AppendBytes(EncodeInt(x, w));
    }

    method ReadoutIntHost(w: nat) returns (x: int)
      requires Valid() && w <= |Contents()|
      modifies this`readIdx, this`writeIdx
      ensures Valid() && x == DecodeInt(old(Contents())[..w]) && Contents() == old(Contents())[w..]
    {
      x := DecodeInt(store[readIdx..readIdx + w]);
      assert store[readIdx..readIdx + w] == Contents()[..w];
      RetrieveBytes(w);
    }

    // find_CRLF: the offset of the first CR LF in the contents, -1 for NULL.
    method FindCRLF() returns (pos: int)
      requires Valid()
      ensures pos == -1 <==> IndexOfCRLF(Contents()) == |Contents()|
      ensures pos != -1 ==> pos == IndexOfCRLF(Contents())
    {
      ghost var s := Contents();
      var i := readIdx;
      CRLFIsFirst(s);
      while i + 1 < writeIdx
        invariant readIdx <= i && (i <= writeIdx)
        invariant forall k :: 0 <= k < i - readIdx && k + 1 < |s| ==> !(s[k] == '\r' && s[k + 1] == '\n')
      {
        assert s[i - readIdx] == store[i] && s[i - readIdx + 1] == store[i + 1];
        if store[i] == '\r' && store[i + 1] == '\n' {
          CRLFIsUnique(s, i - readIdx);
          return i - readIdx;
        }
        i := i + 1;
      }
      pos := -1;
    }

    // One public operation, if its assertions hold.
    method Perform(op: Op) returns (done: bool)
      requires Valid()
      modifies this, store
      ensures Valid() && (store == old(store) || fresh(store))
      ensures done <==> IsAllowed(old(Where()), op)
      ensures Contents() == if done then Apply(old(Contents()), op) else old(Contents())
      ensures Where() == if done then Move(old(Where()), op) else old(Where())
    {
      hide AfterEnsure, AfterAppend, AfterShrink, AfterRead;
      done := IsAllowed(Where(), op);
      if !done { return; }
      match op {
        case Append(data) => AppendBytes(data);
        case Prepend(data) => PrependBytes(data);
        case Retrieve(len) => RetrieveBytes(len);
        case RetrieveAll => RetrieveAllBytes();
        case Unwrite(len) => UnwriteBytes(len);
        case MarkWritten(data) => WriteBytes(data);
        case Shrink(reserve) => ShrinkTo(reserve);
        case EnsureWritable(len) => EnsureWritableLen(len);
        case Read(offered, n) => ReadAllFrom(offered, n);
      }
    }

    // Any run of public operations acts on the contents as on a plain byte string, and refuses
    // exactly the operations whose assertions fail.
    method PerformAll(ops: seq<Op>) returns (done: seq<bool>)
      requires Valid()
      modifies this, store
      ensures Valid() && Trace(Contents(), Where(), done) == Run(old(Contents()), old(Where()), ops)
    {
      done := [];
      for i := 0 to |ops|
        invariant Valid() && (store == old(store) || fresh(store))
        invariant Trace(Contents(), Where(), done) == Run(old(Contents()), old(Where()), ops[..i])
      {
        hide Apply, IsAllowed, Move;
        var did := Perform(ops[i]);
        assert ops[..i + 1][..i] == ops[..i];
        done := done + [did];
      }
      assert ops[..|ops|] == ops;
    }

    // Integers appended and read out in any interleaving: each comes out once, in order, as it went in.
    method PerformInts(ops: seq<IntOp>, ghost queued: seq<Int>) returns (out: seq<int>)
      requires Valid() && Contents() == EncodeAll(queued) && CanPerform(queued, ops)
      modifies this, store
      ensures Valid() && (store == old(store) || fresh(store))
      ensures out == Popped(queued, ops) && Contents() == EncodeAll(Remaining(queued, ops))
      ensures Values(queued + Pushed(ops)) == out + Values(Remaining(queued, ops))
    {
      hide EncodeAll, EncodeInt, DecodeInt, CanPerform, Popped, Remaining, Pushed, IsSigned;
      out := [];
      ghost var q := queued;
      assert ops[0..] == ops && [] + Popped(queued, ops) == Popped(queued, ops);
      for i := 0 to |ops|
        invariant Valid() && (store == old(store) || fresh(store))
        invariant Contents() == EncodeAll(q) && CanPerform(q, ops[i..])
        invariant out + Popped(q, ops[i..]) == Popped(queued, ops) && Remaining(q, ops[i..]) == Remaining(queued, ops)
      {
        FifoStep(q, ops[i..]);
        assert ops[i..][1..] == ops[i + 1..];
        match ops[i] {
          case PushInt(x) =>
            AppendIntNet(x.value, x.width);
            EncodeAllLast(q, x);
            q := q + [x];
          case PopInt(w) =>
            EncodeAllFirst(q);
            var x := ReadoutIntHost(w);
            out := out + [x];
            q := q[1..];
        }
      }
      FifoEnd(q, ops[|ops|..]);
      Fifo(queued, ops);
    }
  }
}
