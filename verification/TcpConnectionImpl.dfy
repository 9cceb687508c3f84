/** The code of ZeroCopier.cc and of TcpConnection.cc's sending side, over objects. */
module TcpConnectionImpl {
  import opened Buffers
  import opened Bytes
  import opened ZeroCopier
  import opened TcpConnection

  class FileCopier {
    const file: seq<Byte>
    const available: bool
    var targetFd: int
    var started: bool
    var total: nat
    var offset: nat
    var failures: nat

    constructor (file: seq<Byte>, available: bool)
      ensures View() == Copier(file, available, -1, false, |file|, 0, 0) && ZeroCopier.Inv(View())
    {
      this.file, this.available := file, available;
      targetFd, started, total, offset, failures := -1, false, |file|, 0, 0;
    }

    function View(): Copier
      reads this
    {
      Copier(file, available, targetFd, started, total, offset, failures)
    }

    // sendfile moves m_offset itself.
    method SendOneChunkZeroCopy(bytesToSend: nat, a: Answer) returns (returned: int, sent: seq<Byte>)
      requires offset + bytesToSend <= |file| && (a.Took? ==> a.n <= bytesToSend)
      modifies this`offset
      ensures returned == Result(ZeroCopy, a).0 && offset == old(offset) + Result(ZeroCopy, a).1
      ensures sent == file[old(offset)..offset]
    {
      match a {
        case Refused =>
          returned, sent := -1, [];
        case Took(n, _) =>
          sent := file[offset..offset + n];
          offset := offset + n;
          returned := n;
      }
    }

    method SendOneChunkMMap(bytesToSend: nat, a: Answer) returns (returned: int, sent: seq<Byte>)
      requires offset + bytesToSend <= |file| && (a.Took? ==> a.n <= bytesToSend)
      modifies this`offset
      ensures returned == Result(MMap, a).0 && offset == old(offset) + Result(MMap, a).1
      ensures sent == file[old(offset)..offset]
    {
      var pageOffset := offset / PAGE_SIZE * PAGE_SIZE;
      var gap := offset - pageOffset;
      var len := gap + bytesToSend;
      MappedBytes(file, offset, bytesToSend, if a.Took? then a.n else 0);
      if a.Refused? { return -1, []; }
      var portion := file[pageOffset..pageOffset + len];
      if a.n > 0 {
        sent := portion[gap..gap + a.n];
        offset := offset + a.n;
      } else {
        return -1, [];
      }
      returned := if a.unmapFails then -1 else a.n;
    }

    method MarkAbort()
      modifies this`total, this`offset
      ensures total == 0 && offset == 0
    {
      total, offset := 0, 0;
    }

    method SendOneChunk(mode: Mode, chunk: nat, a: Answer) returns (sent: seq<Byte>)
      requires ZeroCopier.Inv(View()) && IsPossible(View(), chunk, a)
      modifies this
      ensures View() == ZeroCopier.SendOneChunk(old(View()), mode, a)
      ensures sent == Sent(old(View()), mode, a)
    {
      sent := [];
      if !IsValidCopier(View()) || !started { return; }
      if total - offset <= 0 { return; }
      var bytesToSend := BytesToSend(View(), chunk);
      var returned;
      match mode {
        case ZeroCopy => returned, sent := SendOneChunkZeroCopy(bytesToSend, a);
        case MMap => returned, sent := SendOneChunkMMap(bytesToSend, a);
      }
      if returned < 0 {
        failures := failures + 1;
        if failures >= MAX_TRIAL {
          MarkAbort();
        }
      } else {
        failures := 0;
      }
    }
  }

  class Connection {
    var conn: ConnState
    var sending: SendingState
    const output: Buffer
    var writing: bool
    var copier: FileCopier?
    var shut: bool
    ghost var wire: seq<Byte>
    ghost var accepted: seq<Byte>
    ghost var losses: seq<Loss>
    ghost var open: seq<Byte>

    ghost predicate Valid()
      reads output
    {
      output.Valid()
    }

    ghost function View(): State
      requires Valid()
      reads this, output, output.store, copier
    {
      State(conn, sending, output.Contents(), writing, if copier == null then Nothing else Attached(copier.View()),
            shut, wire, accepted, losses, open)
    }

    constructor ()
      ensures Valid() && fresh(output) && fresh(output.store) && View() == INITIAL
    {
      output := new Buffer(INITIAL_SIZE);
      conn, sending, writing, copier, shut := Connected, NotSending, false, null, false;
      wire, accepted, losses, open := [], [], [], [];
    }

    method SendBytes(data: seq<Byte>)
      requires Valid()
      modifies this, output, output.store
      ensures Valid() && (output.store == old(output.store) || fresh(output.store))
      ensures View() == Do(old(View()), Send(data)) && copier == old(copier)
      ensures output.Contents() == if conn == Connected then old(output.Contents()) + data else old(output.Contents())
      ensures conn == old(conn) && (conn == Connected && data != [] ==> writing)
    {
      if conn == Connected {
        if |data| > 0 {
          output.AppendBytes(data);
          accepted, open := accepted + data, open + data;
          if !writing {
            writing := true;
          }
        }
      }
    }

    method EnableFile(c: FileCopier, fd: nat)
      requires Valid() && ZeroCopier.Inv(c.View())
      modifies this, c
      ensures Valid() && View() == Do(old(View()), EnableZeroCopy(old(c.View()), fd)) && copier == c
    {
      hide Tail;
      copier := c;
      c.targetFd := fd;
      c.started := true;
      writing := true;
      accepted, open := accepted + Tail(c.View()), open + Tail(c.View());
    }

    method ShutdownNow()
      modifies this`shut
      ensures shut == (old(shut) || !writing)
    {
      if !writing { shut := true; }
    }

    method ShutdownConnection()
      requires Valid()
      modifies this`conn, this`shut
      ensures Valid() && View() == Do(old(View()), Shutdown) && copier == old(copier)
    {
      if conn == Connected {
        conn := Disconnecting;
        ShutdownNow();
      }
    }

    method HandleClose()
      requires Valid() && conn != Disconnected
      modifies this`conn, this`writing
      ensures Valid() && View() == Do(old(View()), Close) && copier == old(copier)
      ensures conn == Disconnected && !writing
    {
      conn := Disconnected;
      writing := false;
    }

    method UpdateSendingState()
      // the copier pointer is followed in this state
      requires Valid() && (sending == SendingFile ==> copier != null)
      modifies this`sending
      ensures Valid() && View() == TransferSendingState(old(View()))
    {
      var buffered := output.writeIdx - output.readIdx;
      if sending == NotSending {
        if buffered != 0 {
          sending := SendingBuffer;
        } else if copier != null && !HasFinished(copier.View()) {
          sending := SendingFile;
        }
      } else if sending == SendingBuffer {
        if buffered == 0 {
          sending := NotSending;
        }
      } else if HasFinished(copier.View()) {
        sending := NotSending;
      }
    }

    method WriteFromBuffer(n: int)
      requires Valid() && n <= |output.Contents()|
      modifies this`wire, output
      ensures Valid() && output.store == old(output.store)
      ensures View() == WriteSocketFromBuffer(old(View()), n)
    {
      ghost var bytes := output.Contents();
      if output.writeIdx - output.readIdx == 0 {
        assert n >= 0 ==> wire + bytes[..n] == wire && bytes[n..] == bytes;
        return;
      }
      if n >= 0 {
        wire := wire + bytes[..n];
        output.RetrieveBytes(n);
      }
    }

    method SendFileChunk(mode: Mode, chunk: nat, a: Answer)
      requires Valid() && copier != null && ZeroCopier.Inv(copier.View()) && IsPossible(copier.View(), chunk, a)
      modifies this`wire, this`losses, this`open, copier
      ensures Valid() && View() == SendChunk(old(View()), mode, a)
    {
      hide Tail, ZeroCopier.Inv, IsPossible, ZeroCopier.SendOneChunk, Sent, IsAborting, LossOf;
      ghost var before := copier.View();
      var sent := copier.SendOneChunk(mode, chunk, a);
      wire := wire + sent;
      if IsAborting(before, mode, a) {
        losses, open := losses + [LossOf(open, GivenUp(before, mode, a))], [];
      }
    }

    method WriteBuffer(n: int)
      requires Valid() && n <= |output.Contents()|
      modifies this`sending, this`wire, output
      ensures Valid() && output.store == old(output.store)
      ensures View() == BufferPhase(old(View()), n)
    {
      if sending == NotSending || sending == SendingBuffer {
        sending := SendingBuffer;
        WriteFromBuffer(n);
        UpdateSendingState();
      }
    }

    method WriteFile(mode: Mode, chunk: nat, a: Answer)
      requires Valid()
      requires copier != null ==> ZeroCopier.Inv(copier.View()) && IsPossible(copier.View(), chunk, a)
      modifies this, copier
      ensures Valid() && View() == FilePhase(old(View()), mode, a)
      ensures copier == old(copier) || copier == null
    {
      hide ZeroCopier.Inv, HasFinished, SendChunk, IsPossible;
      if output.writeIdx - output.readIdx == 0 && copier != null && (sending == NotSending || sending == SendingFile) {
        sending := SendingFile;
        SendFileChunk(mode, chunk, a);
        UpdateSendingState();
        if HasFinished(copier.View()) {
          copier := null;
        }
      }
    }

    method HandleWritable(mode: Mode, chunk: nat, n: int, a: Answer)
      requires Valid() && TcpConnection.Inv(View()) && TcpConnection.IsAllowed(View(), Writable(mode, chunk, n, a))
      modifies this, copier, output
      ensures Valid() && output.store == old(output.store)
      ensures View() == Do(old(View()), Writable(mode, chunk, n, a))
      ensures TcpConnection.Inv(View())
    {
      DoKeepsInv(View(), Writable(mode, chunk, n, a));
      assert copier != null ==> ZeroCopier.Inv(copier.View()) && IsPossible(copier.View(), chunk, a);
      hide TcpConnection.Inv, ZeroCopier.Inv, IsPossible, BufferPhase, FilePhase, FinishPhase;
      if writing {
        WriteBuffer(n);
        WriteFile(mode, chunk, a);
        FinishWriting();
      }
    }

    // The end of handle_socket_writable.
    method FinishWriting()
      requires Valid()
      modifies this`writing, this`shut
      ensures Valid() && View() == FinishPhase(old(View()))
    {
      if sending == NotSending {
        writing := false;
        if conn == Disconnecting {
          ShutdownNow();
        }
      }
    }
  }
}
