// devpipe_read and devpipe_write of lib/pipe.c as code.  The other end runs, any number of statements,
// before every statement of the call.  Each sys_yield costs a turn; a call whose turns are used up is
// still waiting.
module PipeCode {
  import opened PipeFifo
  import opened Wrappers

  class PipePage {
    var rpos: nat
    var wpos: nat
    var buf: seq<Byte>
    var reader: Reader              // where the reader stands while the writer's call runs
    var writer: Writer              // where the writer stands while the reader's call runs
    var readOpen: bool
    var writeOpen: bool
    ghost var written: seq<Byte>
    ghost var delivered: seq<Byte>
    ghost var start: nat
    ghost var eof: bool

    ghost function At(r: Reader, w: Writer): State
      reads this
    {
      State(rpos, wpos, buf, r, w, readOpen, writeOpen, written, delivered, start, eof)
    }

    // One statement of devpipe_write, or a new call of it, or the writer's close.
    method WriterMoves(ghost r: Reader)
      requires Inv(At(r, writer))
      modifies this`wpos, this`buf, this`writer, this`written, this`writeOpen
      ensures Inv(At(r, writer)) && old(written) <= written
      ensures eof ==> written == old(written) && writeOpen == old(writeOpen)
      ensures writeOpen ==> old(writeOpen)
    {
      hide RingOk, ReaderOk, EndsOk;
      ghost var s := At(r, writer);
      EofMeansDone(s);
      if writer.WIdle? {
        WriterIdles(r);
      } else {
        WriterStatement(r);
      }
    }

    method WriterIdles(ghost r: Reader)
      requires Inv(At(r, writer)) && writer.WIdle?
      modifies this`writer, this`writeOpen
      ensures Inv(At(r, writer)) && (writeOpen ==> old(writeOpen)) && (!old(writeOpen) ==> !writeOpen)
    {
      hide Inv;
      var leave: bool := *;
      var data: seq<Byte> := *;
      if leave {
        InvStep(At(r, writer), CloseWriter);
        writeOpen := false;
      } else if writeOpen {
        InvStep(At(r, writer), Write(data));
        writer := WLoop(data, 0);
      }
    }

    method WriterStatement(ghost r: Reader)
      requires Inv(At(r, writer)) && !writer.WIdle?
      modifies this`wpos, this`buf, this`writer, this`written
      ensures Inv(At(r, writer)) && old(written) <= written
    {
      var closed: bool := *;
      if closed && readOpen {
        closed := false;
      }
      if writer.WStore? {
        StoreStatement(r, closed);
      } else if writer.WBump? {
        BumpStatement(r, closed);
      } else {
        WriterTests(r, closed);
      }
    }

    method StoreStatement(ghost r: Reader, ghost closed: bool)
      requires Inv(At(r, writer)) && writer.WStore? && (closed ==> !readOpen)
      modifies this`buf, this`writer
      ensures Inv(At(r, writer))
    {
      hide RingOk, ReaderOk, EndsOk;
      ghost var s := At(r, writer);
      WriterInv(s, closed);
      buf := buf[wpos % PIPEBUFSIZ := writer.data[writer.i]];
      writer := WBump(writer.data, writer.i);
      assert At(r, writer) == WriterStep(s, closed);
    }

    // The hypothesis on positions: the statement waits rather than overflow.
    method BumpStatement(ghost r: Reader, ghost closed: bool)
      requires Inv(At(r, writer)) && writer.WBump? && (closed ==> !readOpen)
      modifies this`wpos, this`writer, this`written
      ensures Inv(At(r, writer)) && old(written) <= written
    {
      hide RingOk, ReaderOk, EndsOk;
      ghost var s := At(r, writer);
      if wpos + 1 < OFFMAX {
        WriterInv(s, closed);
        written := written + [writer.data[writer.i]];
        wpos := wpos + 1;
        writer := WLoop(writer.data, writer.i + 1);
        assert At(r, writer) == WriterStep(s, closed);
      }
    }

    method WriterTests(ghost r: Reader, closed: bool)
      requires Inv(At(r, writer)) && !writer.WIdle? && !writer.WStore? && !writer.WBump? && (closed ==> !readOpen)
      modifies this`writer
      ensures Inv(At(r, writer))
    {
      hide RingOk, ReaderOk, WriterOk, EndsOk;
      ghost var s := At(r, writer);
      WriterInv(s, closed);
      writer := match writer {
        case WLoop(d, i) => if i < |d| then WTest(d, i) else WReturn(d, i)
        case WTest(d, i) => if wpos >= rpos + PIPEBUFSIZ then WFull(d, i) else WStore(d, i)
        case WFull(d, i) => if closed then WReturn(d, 0) else WTest(d, i)
        case _ => WIdle
      };
      assert At(r, writer) == WriterStep(s, closed);
    }

    method WriterRuns(ghost r: Reader)
      requires Inv(At(r, writer))
      modifies this`wpos, this`buf, this`writer, this`written, this`writeOpen
      ensures Inv(At(r, writer)) && old(written) <= written
      ensures eof ==> written == old(written) && writeOpen == old(writeOpen)
      ensures writeOpen ==> old(writeOpen)
    {
      hide Inv;
      var steps: int := *;
      while steps > 0
        invariant Inv(At(r, writer)) && old(written) <= written
        invariant eof ==> written == old(written) && writeOpen == old(writeOpen)
        invariant writeOpen ==> old(writeOpen)
      {
        WriterMoves(r);
        steps := steps - 1;
      }
    }

    // _pipeisclosed: true only when no writer is left (module PipeClose).
    method WritersGone() returns (closed: bool)
      ensures closed ==> !writeOpen
    {
      var answer: bool := *;
      closed := answer && !writeOpen;
    }

    // One byte: lines 133 and 134, the writer running before each statement.
    method TakeByte(n: nat, i: nat) returns (b: Byte)
      requires Inv(At(RTake(n, i), writer))
      modifies this`rpos, this`wpos, this`buf, this`writer, this`written, this`writeOpen, this`delivered
      ensures Inv(At(RLoop(n, i + 1), writer)) && old(written) <= written && delivered == old(delivered) + [b]
    {
      hide RingOk, ReaderOk, WriterOk, EndsOk;
      WriterRuns(RTake(n, i));
      ReaderInv(At(RTake(n, i), writer), false);
      b := buf[rpos % PIPEBUFSIZ];
      delivered := delivered + [b];
      WriterRuns(RBump(n, i));
      ReaderInv(At(RBump(n, i), writer), false);
      rpos := rpos + 1;
      WriterRuns(RLoop(n, i + 1));
    }

    // Lines 118 to 129, while the ring is empty.  gone: every writer is; otherwise the ring was tested again.
    method AwaitByte(n: nat, i: nat) returns (stop: bool)
      requires Inv(At(RTest(n, i), writer)) && rpos == wpos && i < n
      modifies this`wpos, this`buf, this`writer, this`written, this`writeOpen, this`eof
      ensures old(written) <= written && old(written) <= delivered
      ensures stop ==> Inv(At(RIdle, writer)) && (i == 0 ==> eof && !writeOpen)
      ensures !stop ==> i == 0 && Inv(At(RTest(n, 0), writer))
    {
      hide Inv, ReaderStep, WriterStep;
      ghost var seen := wpos;
      EmptyIsDrained(At(RTest(n, i), writer));
      SeesEmpty(At(RTest(n, i), writer));
      WriterRuns(REmpty(n, i, seen));
      if i > 0 {
        LeavesWithData(At(REmpty(n, i, seen), writer));
        return true;
      }
      AsksClosed(At(REmpty(n, i, seen), writer));
      WriterRuns(RClosed(n, seen));
      var closed := WritersGone();
      if closed {
        ReaderSeesEof(At(RClosed(n, seen), writer));
        eof := true;
        return true;
      }
      ReaderYields(At(RClosed(n, seen), writer));
      WriterRuns(RTest(n, 0));
      return false;
    }

    // The next bytes the writer wrote.  Fewer than n, or none yet, only with every byte delivered that was
    // written before the call; none, for n > 0, only after every writer is gone.
    method DevpipeRead(n: nat, turns: nat) returns (r: Option<seq<Byte>>)
      requires Inv(At(RIdle, writer)) && readOpen
      modifies this`rpos, this`wpos, this`buf, this`writer, this`written, this`writeOpen, this`delivered, this`start, this`eof
      ensures old(written) <= written
      ensures r.Some? ==>
        && Inv(At(RIdle, writer)) && |r.value| <= n
        && delivered == old(delivered) + r.value && delivered <= written
        && (|r.value| < n ==> old(written) <= delivered)
        && (r.value == [] && n > 0 ==> eof && !writeOpen)
      ensures r.None? ==> Inv(At(RTest(n, 0), writer)) && delivered == old(delivered) && old(written) <= delivered
    {
      hide Inv, ReaderStep, WriterStep;
      InvStep(At(RIdle, writer), Read(n));
      start := |delivered|;
      var data: seq<Byte> := [];
      var left := turns;
      WriterRuns(RLoop(n, 0));
      while |data| < n
        invariant Inv(At(RLoop(n, |data|), writer)) && |data| <= n
        invariant delivered == old(delivered) + data && old(written) <= written
      {
        EnterLoop(At(RLoop(n, |data|), writer));
        WriterRuns(RTest(n, |data|));
        while rpos == wpos
          invariant Inv(At(RTest(n, |data|), writer))
          invariant delivered == old(delivered) + data && old(written) <= written
          decreases left
        {
          var stop := AwaitByte(n, |data|);
          if stop {
            DeliveredIsWritten(At(RIdle, writer));
            return Some(data);
          }
          if left == 0 {
            return None;
          }
          left := left - 1;
        }
        SeesByte(At(RTest(n, |data|), writer));
        var b := TakeByte(n, |data|);
        data := data + [b];
      }
      LeaveLoop(At(RLoop(n, |data|), writer));
      DeliveredIsWritten(At(RIdle, writer));
      return Some(data);
    }

    // ---------------- the writer's side

    // One statement of devpipe_read, or a new call of it, or the reader's close.
    method ReaderMoves(ghost w: Writer)
      requires Inv(At(reader, w))
      modifies this`rpos, this`reader, this`delivered, this`start, this`eof, this`readOpen
      ensures Inv(At(reader, w)) && old(delivered) <= delivered && rpos >= old(rpos)
      ensures readOpen ==> old(readOpen)
    {
      if reader.RIdle? {
        ReaderIdles(w);
      } else {
        ReaderStatement(w);
      }
    }

    method ReaderIdles(ghost w: Writer)
      requires Inv(At(reader, w)) && reader.RIdle?
      modifies this`reader, this`start, this`readOpen
      ensures Inv(At(reader, w)) && (readOpen ==> old(readOpen))
    {
      hide Inv;
      var leave: bool := *;
      var m: int := *;
      if leave {
        InvStep(At(reader, w), CloseReader);
        readOpen := false;
      } else if readOpen && m >= 0 {
        InvStep(At(reader, w), Read(m));
        start := |delivered|;
        reader := RLoop(m, 0);
      }
    }

    method ReaderStatement(ghost w: Writer)
      requires Inv(At(reader, w)) && !reader.RIdle?
      modifies this`rpos, this`reader, this`delivered, this`eof
      ensures Inv(At(reader, w)) && old(delivered) <= delivered && rpos >= old(rpos)
    {
      hide Inv;
      var closed: bool := *;
      if closed && writeOpen {
        closed := false;
      }
      ghost var s := At(reader, w);
      RingSize(s);
      ReaderInv(s, closed);
      if reader.RTake? {
        delivered := delivered + [buf[rpos % PIPEBUFSIZ]];
        reader := RBump(reader.n, reader.i);
      } else if reader.RBump? {
        rpos := rpos + 1;
        reader := RLoop(reader.n, reader.i + 1);
      } else {
        ReaderTests(w, closed);
      }
      assert At(reader, w) == ReaderStep(s, closed);
    }

    method ReaderTests(ghost w: Writer, closed: bool)
      requires |buf| == PIPEBUFSIZ && !reader.RIdle? && !reader.RTake? && !reader.RBump?
      modifies this`reader, this`eof
      ensures At(reader, w) == ReaderStep(old(At(reader, w)), closed)
    {
      if reader.RClosed? && closed {
        eof := true;
      }
      reader := match reader {
        case RLoop(n, i) => if i < n then RTest(n, i) else RReturn(n, i)
        case RTest(n, i) => if rpos == wpos then REmpty(n, i, wpos) else RTake(n, i)
        case REmpty(n, i, seen) => if i > 0 then RReturn(n, i) else RClosed(n, seen)
        case RClosed(n, _) => if closed then RReturn(n, 0) else RTest(n, 0)
        case _ => RIdle
      };
    }

    method ReaderRuns(ghost w: Writer)
      requires Inv(At(reader, w))
      modifies this`rpos, this`reader, this`delivered, this`start, this`eof, this`readOpen
      ensures Inv(At(reader, w)) && old(delivered) <= delivered && rpos >= old(rpos)
      ensures readOpen ==> old(readOpen)
    {
      hide Inv;
      var steps: int := *;
      while steps > 0
        invariant Inv(At(reader, w)) && old(delivered) <= delivered && rpos >= old(rpos)
        invariant readOpen ==> old(readOpen)
      {
        ReaderMoves(w);
        steps := steps - 1;
      }
    }

    method ReadersGone() returns (closed: bool)
      ensures closed ==> !readOpen
    {
      var answer: bool := *;
      closed := answer && !readOpen;
    }

    // Lines 167 and 168, the reader running before each.
    method PutByte(data: seq<Byte>, i: nat)
      requires Inv(At(reader, WStore(data, i))) && wpos + 1 < OFFMAX && i < |data|
      modifies this`rpos, this`wpos, this`buf, this`reader, this`delivered, this`start, this`eof, this`readOpen, this`written
      ensures Inv(At(reader, WLoop(data, i + 1))) && old(delivered) <= delivered && wpos == old(wpos) + 1
      ensures rpos >= old(rpos)
      ensures written == old(written) + [data[i]]
    {
      hide RingOk, ReaderOk, WriterOk, EndsOk;
      ReaderRuns(WStore(data, i));
      WriterInv(At(reader, WStore(data, i)), false);
      buf := buf[wpos % PIPEBUFSIZ := data[i]];
      ReaderRuns(WBump(data, i));
      WriterInv(At(reader, WBump(data, i)), false);
      written := written + [data[i]];
      wpos := wpos + 1;
      ReaderRuns(WLoop(data, i + 1));
    }

    // Lines 153 to 163, while the ring is full.
    method AwaitRoom(data: seq<Byte>, i: nat) returns (stop: bool)
      requires Inv(At(reader, WTest(data, i))) && wpos >= rpos + PIPEBUFSIZ
      modifies this`rpos, this`reader, this`delivered, this`start, this`eof, this`readOpen
      ensures old(delivered) <= delivered && rpos >= old(rpos)
      ensures stop ==> Inv(At(reader, WIdle)) && !readOpen
      ensures !stop ==> Inv(At(reader, WTest(data, i)))
    {
      hide Inv;
      WriterGoes(At(reader, WTest(data, i)), false, WFull(data, i));
      ReaderRuns(WFull(data, i));
      var closed := ReadersGone();
      if closed {
        WriterGoes(At(reader, WFull(data, i)), true, WReturn(data, 0));
        WriterGoes(At(reader, WReturn(data, 0)), false, WIdle);
        return true;
      }
      WriterGoes(At(reader, WFull(data, i)), false, WTest(data, i));
      ReaderRuns(WTest(data, i));
      return false;
    }

    // All of data is written and its length returned; or, once every reader is gone, some of it and 0.  Less
    // than all only after the ring was full.
    method DevpipeWrite(data: seq<Byte>, turns: nat) returns (r: Option<nat>)
      requires Inv(At(reader, WIdle)) && writeOpen && wpos + |data| < OFFMAX
      modifies this`rpos, this`wpos, this`buf, this`reader, this`delivered, this`start, this`eof, this`readOpen, this`written
      ensures old(delivered) <= delivered
      ensures r.Some? ==>
        && Inv(At(reader, WIdle))
        && (|| (r.value == |data| && written == old(written) + data)
            || (r.value == 0 && !readOpen && exists i :: 0 <= i < |data| && written == old(written) + data[..i]))
      ensures r.None? ==> exists i :: 0 <= i < |data| && written == old(written) + data[..i]
      ensures r != Some(|data|) ==> wpos >= old(rpos) + PIPEBUFSIZ
    {
      hide Inv;
      InvStep(At(reader, WIdle), Write(data));
      var i, left := 0, turns;
      ReaderRuns(WLoop(data, 0));
      while i < |data|
        invariant 0 <= i <= |data| && Inv(At(reader, WLoop(data, i))) && old(delivered) <= delivered && rpos >= old(rpos)
        invariant wpos + (|data| - i) < OFFMAX && written == old(written) + data[..i]
      {
        WriterGoes(At(reader, WLoop(data, i)), false, WTest(data, i));
        ReaderRuns(WTest(data, i));
        while wpos >= rpos + PIPEBUFSIZ
          invariant Inv(At(reader, WTest(data, i))) && old(delivered) <= delivered && rpos >= old(rpos)
          invariant wpos + (|data| - i) < OFFMAX && written == old(written) + data[..i]
          decreases left
        {
          var stop := AwaitRoom(data, i);
          if stop {
            return Some(0);
          }
          if left == 0 {
            return None;
          }
          left := left - 1;
        }
        WriterGoes(At(reader, WTest(data, i)), false, WStore(data, i));
        PutByte(data, i);
        assert data[..i + 1] == data[..i] + [data[i]];
        i := i + 1;
      }
      assert data[..i] == data;
      WriterGoes(At(reader, WLoop(data, i)), false, WReturn(data, i));
      WriterGoes(At(reader, WReturn(data, i)), false, WIdle);
      return Some(i);
    }
  }

  // A statement that only moves the program counter.
  lemma ReaderGoes(s: State, r: Reader)
    requires Inv(s) && !s.reader.RIdle? && ReaderStep(s, false) == s.(reader := r)
    ensures Inv(s.(reader := r))
  {
    ReaderInv(s, false);
  }

  lemma EnterLoop(s: State)
    requires Inv(s) && s.reader.RLoop? && s.reader.i < s.reader.n
    ensures Inv(s.(reader := RTest(s.reader.n, s.reader.i)))
  {
    ReaderGoes(s, RTest(s.reader.n, s.reader.i));
  }

  lemma SeesByte(s: State)
    requires Inv(s) && s.reader.RTest? && s.rpos != s.wpos
    ensures Inv(s.(reader := RTake(s.reader.n, s.reader.i)))
  {
    ReaderGoes(s, RTake(s.reader.n, s.reader.i));
  }

  lemma LeaveLoop(s: State)
    requires Inv(s) && s.reader.RLoop? && s.reader.i >= s.reader.n
    ensures Inv(s.(reader := RIdle))
  {
    ReaderGoes(s, RReturn(s.reader.n, s.reader.i));
    ReaderGoes(s.(reader := RReturn(s.reader.n, s.reader.i)), RIdle);
  }

  lemma RingSize(s: State)
    requires Inv(s)
    ensures |s.buf| == PIPEBUFSIZ
  {
  }

  lemma SeesEmpty(s: State)
    requires Inv(s) && s.reader.RTest? && s.rpos == s.wpos
    ensures Inv(s.(reader := REmpty(s.reader.n, s.reader.i, s.wpos)))
  {
    ReaderGoes(s, REmpty(s.reader.n, s.reader.i, s.wpos));
  }

  lemma LeavesWithData(s: State)
    requires Inv(s) && s.reader.REmpty? && s.reader.i > 0
    ensures Inv(s.(reader := RIdle))
  {
    ReaderGoes(s, RReturn(s.reader.n, s.reader.i));
    ReaderGoes(s.(reader := RReturn(s.reader.n, s.reader.i)), RIdle);
  }

  lemma AsksClosed(s: State)
    requires Inv(s) && s.reader.REmpty? && s.reader.i == 0
    ensures Inv(s.(reader := RClosed(s.reader.n, s.reader.seen)))
  {
    ReaderGoes(s, RClosed(s.reader.n, s.reader.seen));
  }

  lemma ReaderYields(s: State)
    requires Inv(s) && s.reader.RClosed?
    ensures Inv(s.(reader := RTest(s.reader.n, 0)))
  {
    ReaderGoes(s, RTest(s.reader.n, 0));
  }

  lemma ReaderSeesEof(s: State)
    requires Inv(s) && s.reader.RClosed? && !s.writeOpen
    ensures Inv(s.(reader := RIdle, eof := true))
  {
    ReaderInv(s, true);
    ReaderGoes(s.(reader := RReturn(s.reader.n, 0), eof := true), RIdle);
  }

  lemma WriterGoes(s: State, closed: bool, w: Writer)
    requires Inv(s) && !s.writer.WIdle? && !s.writer.WBump? && (closed ==> !s.readOpen)
    requires WriterStep(s, closed) == s.(writer := w)
    ensures Inv(s.(writer := w))
  {
    WriterInv(s, closed);
  }

  lemma EofMeansDone(s: State)
    requires Inv(s)
    ensures s.eof ==> !s.writeOpen && s.writer.WIdle?
  {
  }

  lemma EmptyIsDrained(s: State)
    requires Inv(s) && s.reader.RTest? && s.rpos == s.wpos
    ensures s.delivered == s.written
  {
  }

  lemma DeliveredIsWritten(s: State)
    requires Inv(s)
    ensures s.delivered <= s.written
  {
  }
}
