/** The fixed buffer on its array and the logger on its fields, against the steps of AsyncLogging. */
module AsyncLoggingImpl {

  import opened AsyncLogging
  import opened Options

  lemma {:induction false} SizeIsLength(b: Buffer)
    ensures Size(b) == |Flatten(b)|
  {
    if b != [] {
      SizeIsLength(b[..|b| - 1]);
    }
  }

  // flute/common/FixedBuffer.h
  class FixedBuffer {
    const data: array<char>
    var cur: nat

    ghost predicate Valid()
      reads this
    {
      data.Length == BUFFER_SIZE && cur < data.Length
    }

    ghost function Contents(): string
      requires Valid()
      reads this, data
    {
      data[..cur]
    }

    constructor ()
      ensures Valid() && fresh(data) && Contents() == []
    {
      data := new char[BUFFER_SIZE];
      cur := 0;
    }

    method Avail() returns (n: nat)
      requires Valid()
      ensures n == BUFFER_SIZE - |Contents()|
    {
      n := data.Length - cur;
    }

    // The bytes held are those of the lines b before, and of Put(b, line) after.
    method Append(line: Line, ghost b: Buffer)
      requires Valid() && Contents() == Flatten(b)
      modifies this`cur, data
      ensures Valid() && Contents() == Flatten(Put(b, line))
    {
      SizeIsLength(b);
      FlattenLast(b, line);
      if data.Length - cur > |line| {
        ghost var before := Contents();
        forall i | 0 <= i < |line| {
          data[cur + i] := line[i];
        }
        cur := cur + |line|;
        assert Contents() == before + line;
      }
    }

    method ResetCur()
      requires Valid()
      modifies this`cur
      ensures Valid() && Contents() == []
    {
      cur := 0;
    }
  }

  // flute/common/AsyncLogging.cc. A unique_ptr is an Option that is None once moved from.
  class Logger {
    var cur: Option<Buffer>
    var reserve: Option<Buffer>
    var used: seq<Buffer>
    var new1: Option<Buffer>
    var new2: Option<Buffer>
    var toWrite: seq<Buffer>
    var file: seq<Record>
    ghost var phase: Phase
    ghost var appended: seq<Line>
    ghost var batches: seq<seq<Buffer>>

    ghost function View(): State
      reads this
    {
      State(cur, reserve, used, phase, new1, new2, toWrite, false, file, appended, batches)
    }

    ghost predicate Valid()
      reads this
    {
      Inv(View())
    }

    constructor ()
      ensures Valid() && View() == Start()
    {
      cur, reserve, used := Some([]), Some([]), [];
      new1, new2, toWrite, file := Some([]), Some([]), [], [];
      phase, appended, batches := Ready, [], [];
      new;
      StartIsSound();
    }

    method Append(line: Line)
      requires Valid()
      modifies this`cur, this`reserve, this`used, this`appended
      ensures Valid() && View() == Do(old(View()), Step.Append(line))
    {
      hide Size, Flatten, ShortLines, Render, Put;
      DoKeepsInv(View(), Step.Append(line));
      if BUFFER_SIZE - Size(cur.value) > |line| {
        cur := Some(Put(cur.value, line));
      } else {
        used := used + [cur.value];
        cur := None;
        if reserve.Some? {
          cur, reserve := reserve, None;
        } else {
          cur := Some([]);
        }
        cur := Some(Put(cur.value, line));
      }
      appended := appended + [line];
    }

    // The backend's critical section.
    method SwapBuffers()
      requires Valid() && phase == Ready
      modifies this
      ensures Valid() && View() == Do(old(View()), Swap)
    {
      hide Size, Flatten, ShortLines, Render, FileAgrees, LinesAgree, WrittenBatches;
      EmptyIsSmall();
      DoKeepsInv(View(), Swap);
      used := used + [cur.value];
      cur, new1 := new1, None;
      toWrite, used := used, toWrite;
      if reserve.None? {
        reserve, new2 := new2, None;
      }
      batches := batches + [toWrite];
      phase := Swapped;
    }

    method WriteBuffers()
      requires Valid() && phase == Swapped
      modifies this`toWrite, this`file, this`phase
      ensures Valid() && View() == Do(old(View()), Write)
    {
      hide Size, Flatten, ShortLines, Render, Records;
      DoKeepsInv(View(), Write);
      ghost var batch := toWrite;
      ghost var before := file;
      if |toWrite| > 2 {
        file := file + [Notice(|toWrite| - 2)];
        toWrite := toWrite[..2];
      }
      WriteRecords();
      assert file == before + RenderBatch(batch);
      phase := Written;
    }

    method WriteRecords()
      modifies this`file
      ensures file == old(file) + Records(toWrite)
    {
      var i := 0;
      while i < |toWrite|
        invariant i <= |toWrite|
        invariant file == old(file) + Records(toWrite[..i])
      {
        file := file + [Data(toWrite[i])];
        AppendLast(toWrite[..i], toWrite[i]);
        assert toWrite[..i + 1] == toWrite[..i] + [toWrite[i]];
        i := i + 1;
      }
      assert toWrite[..i] == toWrite;
    }

    // After writing, the written buffers replace the spare ones that were handed out.
    method Recycle()
      requires Valid() && phase == Written
      modifies this`new1, this`new2, this`toWrite, this`phase
      ensures Valid() && View() == Do(old(View()), Step.Recycle)
    {
      hide Size, Flatten, ShortLines, Render;
      DoKeepsInv(View(), Step.Recycle);
      if new1.None? {
        assert toWrite != [];
        toWrite := toWrite[..|toWrite| - 1];
        new1 := Some([]);
      }
      if new2.None? {
        assert toWrite != [];
        toWrite := toWrite[..|toWrite| - 1];
        new2 := Some([]);
      }
      toWrite := [];
      phase := Ready;
    }
  }
}
