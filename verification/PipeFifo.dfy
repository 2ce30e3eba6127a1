// The pipe buffer (lib/pipe.c): devpipe_read and devpipe_write, one reader and one writer,
// interleaved statement by statement.
module PipeFifo {

  const PIPEBUFSIZ: nat := 32

  // Positions are off_t, a signed 32-bit integer.
  const OFFMAX: nat := 0x8000_0000

  type Byte = bv8

  // devpipe_read(n): i bytes taken so far.  seen is the write position the emptiness test read.
  datatype Reader =
    | RIdle
    | RLoop(n: nat, i: nat)               // for test
    | RTest(n: nat, i: nat)               // while (p_rpos == p_wpos)
    | REmpty(n: nat, i: nat, seen: nat)   // if (i > 0) return i
    | RClosed(n: nat, seen: nat)          // if (_pipeisclosed(fd, p)) return 0
    | RTake(n: nat, i: nat)               // buf[i] = p_buf[p_rpos % PIPEBUFSIZ]
    | RBump(n: nat, i: nat)               // p_rpos++
    | RReturn(n: nat, r: nat)

  // devpipe_write(data): i bytes stored so far.
  datatype Writer =
    | WIdle
    | WLoop(data: seq<Byte>, i: nat)
    | WTest(data: seq<Byte>, i: nat)      // while (p_wpos >= p_rpos + sizeof(p_buf))
    | WFull(data: seq<Byte>, i: nat)      // if (_pipeisclosed(fd, p)) return 0
    | WStore(data: seq<Byte>, i: nat)     // p_buf[p_wpos % PIPEBUFSIZ] = buf[i]
    | WBump(data: seq<Byte>, i: nat)      // p_wpos++
    | WReturn(data: seq<Byte>, r: nat)

  datatype State = State(
    rpos: nat, wpos: nat, buf: seq<Byte>,
    reader: Reader, writer: Writer,
    readOpen: bool, writeOpen: bool,
    written: seq<Byte>,      // every byte whose p_wpos++ was done
    delivered: seq<Byte>,    // every byte stored into a caller's buffer, except one an aborted call had not counted
    start: nat,              // |delivered| when the current devpipe_read began
    eof: bool                // some devpipe_read(n) with n > 0 has returned 0
  )

  datatype Step =
    | Read(n: nat) | Reading(closed: bool) | CloseReader
    | Write(data: seq<Byte>) | Writing(closed: bool) | CloseWriter
    | AbortRead | AbortWrite    // the environment is destroyed in the middle of its call

  // The answer of _pipeisclosed is true only when the other end is gone; PipeJoint proves it.
  predicate Enabled(s: State, t: Step) {
    match t
    case Read(n) => s.reader.RIdle? && s.readOpen
    case Reading(closed) => !s.reader.RIdle? && (closed ==> !s.writeOpen)
    case CloseReader => s.reader.RIdle?
    case Write(data) => s.writer.WIdle? && s.writeOpen
    case Writing(closed) =>
      !s.writer.WIdle? && (closed ==> !s.readOpen) && (s.writer.WBump? ==> s.wpos + 1 < OFFMAX)
    case CloseWriter => s.writer.WIdle?
    case AbortRead => !s.reader.RIdle?
    case AbortWrite => !s.writer.WIdle?
  }

  function ReaderStep(s: State, closed: bool): State
    requires |s.buf| == PIPEBUFSIZ
  {
    match s.reader
    case RIdle => s
    case RLoop(n, i) => s.(reader := if i < n then RTest(n, i) else RReturn(n, i))
    case RTest(n, i) => s.(reader := if s.rpos == s.wpos then REmpty(n, i, s.wpos) else RTake(n, i))
    case REmpty(n, i, seen) => s.(reader := if i > 0 then RReturn(n, i) else RClosed(n, seen))
    case RClosed(n, seen) =>
      if closed then s.(reader := RReturn(n, 0), eof := true)
      else s.(reader := RTest(n, 0))    // sys_yield
    case RTake(n, i) =>
      s.(reader := RBump(n, i), delivered := s.delivered + [s.buf[s.rpos % PIPEBUFSIZ]])
    case RBump(n, i) => s.(reader := RLoop(n, i + 1), rpos := s.rpos + 1)
    case RReturn(n, r) => s.(reader := RIdle)
  }

  function WriterStep(s: State, closed: bool): State
    requires |s.buf| == PIPEBUFSIZ
  {
    match s.writer
    case WIdle => s
    case WLoop(data, i) => s.(writer := if i < |data| then WTest(data, i) else WReturn(data, i))
    case WTest(data, i) => s.(writer := if s.wpos >= s.rpos + PIPEBUFSIZ then WFull(data, i) else WStore(data, i))
    case WFull(data, i) => s.(writer := if closed then WReturn(data, 0) else WTest(data, i))
    case WStore(data, i) =>
      if i < |data| then
        s.(writer := WBump(data, i), buf := s.buf[s.wpos % PIPEBUFSIZ := data[i]])
      else s
    case WBump(data, i) =>
      if i < |data| then
        s.(writer := WLoop(data, i + 1), wpos := s.wpos + 1, written := s.written + [data[i]])
      else s
    case WReturn(data, r) => s.(writer := WIdle)
  }

  // A byte whose p_rpos++ was not done is taken again by the next reader.
  function Counted(s: State): seq<Byte> {
    if s.rpos <= |s.delivered| then s.delivered[..s.rpos] else s.delivered
  }

  function Apply(s: State, t: Step): State
    requires |s.buf| == PIPEBUFSIZ && Enabled(s, t)
  {
    match t
    case Read(n) => s.(reader := RLoop(n, 0), start := |s.delivered|)
    case Reading(closed) => ReaderStep(s, closed)
    case CloseReader => s.(readOpen := false)
    case Write(data) => s.(writer := WLoop(data, 0))
    case Writing(closed) => WriterStep(s, closed)
    case CloseWriter => s.(writeOpen := false)
    case AbortRead => s.(reader := RIdle, delivered := Counted(s))
    case AbortWrite => s.(writer := WIdle)
  }

  // ------------------------------------------------------------------
  // Invariant
  // ------------------------------------------------------------------

  predicate ReaderOk(s: State) {
    && |s.delivered| == s.rpos + (if s.reader.RBump? then 1 else 0)
    && s.start <= s.rpos
    && match s.reader
       case RIdle => true
       case RLoop(n, i) => i <= n && s.rpos == s.start + i
       case RTest(n, i) => i < n && s.rpos == s.start + i
       case REmpty(n, i, seen) => i < n && s.rpos == s.start + i && seen == s.rpos
       case RClosed(n, seen) => 0 < n && s.rpos == s.start && seen == s.rpos
       case RTake(n, i) => i < n && s.rpos == s.start + i && s.rpos < s.wpos
       case RBump(n, i) => i < n && s.rpos == s.start + i && s.rpos < s.wpos
       case RReturn(n, r) => r <= n && s.rpos == s.start + r && (r == 0 && n > 0 ==> s.eof)
  }

  predicate WriterOk(s: State)
    requires |s.buf| == PIPEBUFSIZ
  {
    match s.writer
    case WIdle => true
    case WLoop(data, i) => i <= |data|
    case WTest(data, i) => i < |data|
    case WFull(data, i) => i < |data|
    case WStore(data, i) => i < |data| && s.wpos < s.rpos + PIPEBUFSIZ
    case WBump(data, i) => i < |data| && s.wpos < s.rpos + PIPEBUFSIZ && s.buf[s.wpos % PIPEBUFSIZ] == data[i]
    case WReturn(data, r) => r <= |data|
  }

  // The ring holds the bytes written and not yet consumed.
  ghost predicate RingOk(s: State)
    requires |s.buf| == PIPEBUFSIZ
  {
    && s.rpos <= s.wpos <= s.rpos + PIPEBUFSIZ && s.wpos < OFFMAX
    && |s.written| == s.wpos
    && (forall k :: s.rpos <= k < s.wpos ==> s.buf[k % PIPEBUFSIZ] == s.written[k])
    && s.delivered <= s.written
  }

  predicate EndsOk(s: State) {
    && (s.eof ==> !s.writeOpen)
    && (!s.writer.WIdle? ==> s.writeOpen)
    && (!s.reader.RIdle? ==> s.readOpen)
  }

  ghost predicate Inv(s: State) {
    |s.buf| == PIPEBUFSIZ && RingOk(s) && ReaderOk(s) && WriterOk(s) && EndsOk(s)
  }

  // Distinct positions less than a buffer apart use distinct cells.
  lemma CellsApart(a: nat, b: nat)
    requires a < b < a + PIPEBUFSIZ
    ensures a % PIPEBUFSIZ != b % PIPEBUFSIZ
  {
  }

  lemma StoreKeepsRing(s: State, b: Byte)
    requires |s.buf| == PIPEBUFSIZ && RingOk(s) && s.wpos < s.rpos + PIPEBUFSIZ
    ensures RingOk(s.(buf := s.buf[s.wpos % PIPEBUFSIZ := b]))
  {
    forall k | s.rpos <= k < s.wpos
      ensures s.buf[s.wpos % PIPEBUFSIZ := b][k % PIPEBUFSIZ] == s.written[k]
    {
      CellsApart(k, s.wpos);
    }
  }

  lemma TakeKeepsRing(s: State)
    requires |s.buf| == PIPEBUFSIZ && RingOk(s) && s.rpos < s.wpos && |s.delivered| == s.rpos
    ensures s.delivered + [s.buf[s.rpos % PIPEBUFSIZ]] <= s.written
  {
    assert s.buf[s.rpos % PIPEBUFSIZ] == s.written[s.rpos];
    assert s.delivered + [s.written[s.rpos]] == s.written[..s.rpos + 1];
  }

  // The reader touches neither the ring nor the write position.
  lemma ReaderFrame(s: State, closed: bool)
    requires |s.buf| == PIPEBUFSIZ && ReaderOk(s) && s.rpos <= s.wpos
    ensures var s' := ReaderStep(s, closed);
      && s'.buf == s.buf && s'.written == s.written && s'.wpos == s.wpos && s'.writer == s.writer
      && s.rpos <= s'.rpos <= s.wpos
      && s'.delivered == if s.reader.RTake? then s.delivered + [s.buf[s.rpos % PIPEBUFSIZ]] else s.delivered
  {
  }

  lemma TakePc(s: State, closed: bool)
    requires |s.buf| == PIPEBUFSIZ && ReaderOk(s) && (s.reader.RTake? || s.reader.RBump?)
    ensures ReaderOk(ReaderStep(s, closed))
  {
  }

  // Everywhere else a statement moves only the reader's point.
  function NextTest(s: State, closed: bool): Reader {
    match s.reader
    case RLoop(n, i) => if i < n then RTest(n, i) else RReturn(n, i)
    case RTest(n, i) => if s.rpos == s.wpos then REmpty(n, i, s.wpos) else RTake(n, i)
    case REmpty(n, i, seen) => if i > 0 then RReturn(n, i) else RClosed(n, seen)
    case RClosed(n, seen) => if closed then RReturn(n, 0) else RTest(n, 0)
    case _ => RIdle
  }

  lemma TestStep(s: State, closed: bool)
    requires |s.buf| == PIPEBUFSIZ && !s.reader.RTake? && !s.reader.RBump?
    ensures ReaderStep(s, closed) == s.(reader := NextTest(s, closed), eof := s.eof || (s.reader.RClosed? && closed))
  {
  }

  lemma TestPc(s: State, closed: bool)
    requires |s.buf| == PIPEBUFSIZ && ReaderOk(s) && s.rpos <= s.wpos && !s.reader.RTake? && !s.reader.RBump?
    ensures ReaderOk(ReaderStep(s, closed))
  {
    hide ReaderStep;
    TestStep(s, closed);
  }

  lemma ReaderPc(s: State, closed: bool)
    requires |s.buf| == PIPEBUFSIZ && ReaderOk(s) && s.rpos <= s.wpos
    ensures ReaderOk(ReaderStep(s, closed))
  {
    if s.reader.RTake? || s.reader.RBump? {
      TakePc(s, closed);
    } else {
      TestPc(s, closed);
    }
  }

  lemma ReaderInv(s: State, closed: bool)
    requires Inv(s) && Enabled(s, Reading(closed))
    ensures Inv(ReaderStep(s, closed))
  {
    ReaderFrame(s, closed);
    ReaderPc(s, closed);
    if s.reader.RTake? {
      TakeKeepsRing(s);
    }
  }

  lemma WriterPc(s: State, closed: bool)
    requires |s.buf| == PIPEBUFSIZ && WriterOk(s)
    ensures var s' := WriterStep(s, closed);
      && |s'.buf| == PIPEBUFSIZ && WriterOk(s')
      && s'.reader == s.reader && s'.rpos == s.rpos && s'.delivered == s.delivered && s'.start == s.start
  {
  }

  lemma WriterRing(s: State, closed: bool)
    requires |s.buf| == PIPEBUFSIZ && WriterOk(s) && RingOk(s)
    requires s.writer.WBump? ==> s.wpos + 1 < OFFMAX
    ensures |WriterStep(s, closed).buf| == PIPEBUFSIZ && RingOk(WriterStep(s, closed))
  {
    if s.writer.WStore? {
      StoreKeepsRing(s, s.writer.data[s.writer.i]);
    }
  }

  lemma WriterInv(s: State, closed: bool)
    requires Inv(s) && Enabled(s, Writing(closed))
    ensures Inv(WriterStep(s, closed))
  {
    WriterPc(s, closed);
    WriterRing(s, closed);
  }

  lemma InvStep(s: State, t: Step)
    requires Inv(s) && Enabled(s, t)
    ensures Inv(Apply(s, t))
  {
    match t
    case Reading(closed) => ReaderInv(s, closed);
    case Writing(closed) => WriterInv(s, closed);
    case _ =>
  }

  // ------------------------------------------------------------------
  // Whole runs
  // ------------------------------------------------------------------

  predicate IsRun(s: State, ts: seq<Step>)
    decreases |ts|
  {
    ts == [] || (|s.buf| == PIPEBUFSIZ && Enabled(s, ts[0]) && IsRun(Apply(s, ts[0]), ts[1..]))
  }

  function Exec(s: State, ts: seq<Step>): State
    requires IsRun(s, ts)
    decreases |ts|
  {
    if ts == [] then s else Exec(Apply(s, ts[0]), ts[1..])
  }

  predicate Init(s: State) {
    && s.rpos == s.wpos == s.start == 0 && |s.buf| == PIPEBUFSIZ
    && s.reader.RIdle? && s.writer.WIdle? && s.readOpen && s.writeOpen
    && s.written == [] && s.delivered == [] && !s.eof
  }

  lemma {:induction false} RunInv(s: State, ts: seq<Step>)
    requires Inv(s) && IsRun(s, ts)
    ensures Inv(Exec(s, ts))
    decreases |ts|
  {
    if ts != [] {
      InvStep(s, ts[0]);
      RunInv(Apply(s, ts[0]), ts[1..]);
    }
  }

  // First in, first out: whatever the interleaving, the ring never overfills, its live cells hold
  // the bytes written, and the reader has received a prefix of what was written.
  lemma Fifo(s: State, ts: seq<Step>)
    requires Init(s) && IsRun(s, ts)
    ensures var s' := Exec(s, ts);
      && s'.rpos <= s'.wpos <= s'.rpos + PIPEBUFSIZ
      && |s'.buf| == PIPEBUFSIZ && |s'.written| == s'.wpos
      && (forall k :: s'.rpos <= k < s'.wpos ==> s'.buf[k % PIPEBUFSIZ] == s'.written[k])
      && s'.delivered <= s'.written && s'.rpos <= |s'.delivered|
  {
    RunInv(s, ts);
  }

  // The state in which the i-th step of a run is taken.
  function StateAt(s: State, ts: seq<Step>, i: nat): State
    requires IsRun(s, ts) && i <= |ts|
    decreases i
  {
    if i == 0 then s else StateAt(Apply(s, ts[0]), ts[1..], i - 1)
  }

  lemma {:induction false} StateAtNext(s: State, ts: seq<Step>, i: nat)
    requires Inv(s) && IsRun(s, ts) && i < |ts|
    ensures Inv(StateAt(s, ts, i)) && Enabled(StateAt(s, ts, i), ts[i])
    ensures StateAt(s, ts, i + 1) == Apply(StateAt(s, ts, i), ts[i])
    decreases i
  {
    InvStep(s, ts[0]);
    if i > 0 {
      StateAtNext(Apply(s, ts[0]), ts[1..], i - 1);
    }
  }

  lemma {:induction false} StateAtEnd(s: State, ts: seq<Step>)
    requires IsRun(s, ts)
    ensures StateAt(s, ts, |ts|) == Exec(s, ts)
    decreases |ts|
  {
    if ts != [] {
      StateAtEnd(Apply(s, ts[0]), ts[1..]);
    }
  }

  // Past the emptiness test: the ring was found empty, and the closed test has not been done.
  predicate Emptied(r: Reader) {
    r.REmpty? || r.RClosed?
  }

  // bytes is all that had been written at some moment before the reader's last emptiness test.  Past that
  // test, and about to return short, the reader has delivered all of it.
  predicate Drained(s: State, bytes: seq<Byte>) {
    && bytes <= s.written
    && (Emptied(s.reader) || (s.reader.RReturn? && s.reader.r < s.reader.n) ==> bytes <= s.delivered)
  }

  lemma DrainedStep(s: State, t: Step, bytes: seq<Byte>)
    requires Inv(s) && Enabled(s, t) && Drained(s, bytes)
    ensures Drained(Apply(s, t), bytes)
  {
    if t.Reading? && s.reader.RTest? && s.rpos == s.wpos {
      assert s.delivered == s.written;
    }
  }

  lemma {:induction false} DrainedRun(s: State, ts: seq<Step>, bytes: seq<Byte>, i: nat, j: nat)
    requires Inv(s) && IsRun(s, ts) && i <= j <= |ts| && Drained(StateAt(s, ts, i), bytes)
    ensures Drained(StateAt(s, ts, j), bytes)
    decreases j
  {
    hide Inv, Enabled, Apply, Drained;
    if i < j {
      DrainedRun(s, ts, bytes, i, j - 1);
      StateAtNext(s, ts, j - 1);
      DrainedStep(StateAt(s, ts, j - 1), ts[j - 1], bytes);
    }
  }

  lemma ShortReadDrains(s: State, ts: seq<Step>, i: nat)
    requires Init(s) && IsRun(s, ts) && i < |ts| && ts[i].Read?
    requires Exec(s, ts).reader.RReturn? && Exec(s, ts).reader.r < Exec(s, ts).reader.n
    ensures StateAt(s, ts, i).written <= Exec(s, ts).delivered
  {
    StateAtNext(s, ts, i);
    StateAtEnd(s, ts);
    var bytes := StateAt(s, ts, i).written;
    assert Drained(StateAt(s, ts, i + 1), bytes);
    DrainedRun(s, ts, bytes, i + 1, |ts|);
  }

  // A devpipe_read(n) that is about to return r has delivered exactly r bytes, the next ones
  // written.  It returns fewer than n only with every byte delivered that was written before it was
  // called, and none only at end of file.
  lemma ReadReturns(s: State, ts: seq<Step>)
    requires Init(s) && IsRun(s, ts) && Exec(s, ts).reader.RReturn?
    ensures var s' := Exec(s, ts);
      && s'.reader.r <= s'.reader.n
      && |s'.delivered| == s'.start + s'.reader.r
      && |s'.written| >= |s'.delivered|
      && s'.delivered[s'.start..] == s'.written[s'.start..s'.start + s'.reader.r]
      && (s'.reader.r < s'.reader.n ==>
            forall i :: 0 <= i < |ts| && ts[i].Read? ==> StateAt(s, ts, i).written <= s'.delivered)
      && (s'.reader.r == 0 && s'.reader.n > 0 ==> s'.eof && !s'.writeOpen)
  {
    RunInv(s, ts);
    var s' := Exec(s, ts);
    if s'.reader.r < s'.reader.n {
      forall i | 0 <= i < |ts| && ts[i].Read? ensures StateAt(s, ts, i).written <= s'.delivered {
        ShortReadDrains(s, ts, i);
      }
    }
  }

  // How far a devpipe_write(data) has come that found the bytes before written and the reader at from.
  ghost predicate WroteSoFar(s: State, before: seq<Byte>, data: seq<Byte>, from: nat) {
    from <= s.rpos && match s.writer
    case WIdle => true
    case WReturn(d, r) =>
      d == data
      && ((r == |d| && s.written == before + d)
          || (r == 0 && !s.readOpen && s.wpos >= from + PIPEBUFSIZ
              && exists k :: 0 <= k < |d| && s.written == before + d[..k]))
    case _ =>
      s.writer.data == data && s.writer.i <= |data| && s.written == before + data[..s.writer.i]
      && (s.writer.WFull? ==> s.wpos >= from + PIPEBUFSIZ)
  }

  lemma WroteStep(s: State, t: Step, before: seq<Byte>, data: seq<Byte>, from: nat)
    requires Inv(s) && Enabled(s, t) && !t.Write? && WroteSoFar(s, before, data, from)
    ensures WroteSoFar(Apply(s, t), before, data, from)
  {
    if t.Writing? {
      match s.writer
      case WLoop(d, i) => assert i == |d| ==> d[..i] == d;
      case WBump(d, i) => assert before + d[..i] + [d[i]] == before + d[..i + 1];
      case _ =>
    }
  }

  lemma {:induction false} WroteRun(s: State, ts: seq<Step>, before: seq<Byte>, data: seq<Byte>, from: nat, i: nat, j: nat)
    requires Inv(s) && IsRun(s, ts) && i <= j <= |ts| && WroteSoFar(StateAt(s, ts, i), before, data, from)
    requires forall k :: i <= k < j ==> !ts[k].Write?
    ensures WroteSoFar(StateAt(s, ts, j), before, data, from)
    decreases j
  {
    hide Inv, Enabled, Apply, WroteSoFar;
    if i < j {
      WroteRun(s, ts, before, data, from, i, j - 1);
      StateAtNext(s, ts, j - 1);
      WroteStep(StateAt(s, ts, j - 1), ts[j - 1], before, data, from);
    }
  }

  // A devpipe_write(data) that is about to return has appended all of data and returns its length, or, after
  // the ring was full and with the readers gone, a proper prefix of it and returns 0.
  lemma WriteReturns(s: State, ts: seq<Step>, i: nat)
    requires Init(s) && IsRun(s, ts) && Exec(s, ts).writer.WReturn?
    requires i < |ts| && ts[i].Write? && forall k :: i < k < |ts| ==> !ts[k].Write?
    ensures var s', before, data := Exec(s, ts), StateAt(s, ts, i).written, ts[i].data;
      || (s'.writer.r == |data| && s'.written == before + data)
      || (s'.writer.r == 0 && !s'.readOpen && s'.wpos >= StateAt(s, ts, i).rpos + PIPEBUFSIZ
          && exists k :: 0 <= k < |data| && s'.written == before + data[..k])
  {
    StateAtNext(s, ts, i);
    StateAtEnd(s, ts);
    var before, data, from := StateAt(s, ts, i).written, ts[i].data, StateAt(s, ts, i).rpos;
    assert before + data[..0] == before;
    assert WroteSoFar(StateAt(s, ts, i + 1), before, data, from);
    WroteRun(s, ts, before, data, from, i + 1, |ts|);
  }

  lemma WritePosFixedStep(s: State, t: Step)
    requires Inv(s) && Enabled(s, t) && s.eof
    ensures Apply(s, t).eof && Apply(s, t).wpos == s.wpos && Apply(s, t).written == s.written
  {
  }

  // After end of file was reported nothing is ever written again.
  lemma {:induction false} EofIsFinal(s: State, ts: seq<Step>)
    requires Inv(s) && s.eof && IsRun(s, ts)
    ensures Exec(s, ts).wpos == s.wpos && Exec(s, ts).written == s.written
    decreases |ts|
  {
    if ts != [] {
      InvStep(s, ts[0]);
      WritePosFixedStep(s, ts[0]);
      EofIsFinal(Apply(s, ts[0]), ts[1..]);
    }
  }

  // The i-th step is the reader's emptiness test (line 118).
  predicate TestAt(s: State, ts: seq<Step>, i: nat)
    requires IsRun(s, ts) && i < |ts|
  {
    ts[i].Reading? && StateAt(s, ts, i).reader.RTest?
  }

  // The i-th step is the writer's p_wpos++.
  predicate BumpAt(s: State, ts: seq<Step>, i: nat)
    requires IsRun(s, ts) && i < |ts|
  {
    ts[i].Writing? && StateAt(s, ts, i).writer.WBump?
  }

  ghost predicate LastTest(s: State, ts: seq<Step>, i: nat, n: nat)
    requires IsRun(s, ts) && n <= |ts|
  {
    i < n && TestAt(s, ts, i) && forall k :: i < k < n ==> !TestAt(s, ts, k)
  }

  ghost predicate BumpBetween(s: State, ts: seq<Step>, i: nat, n: nat)
    requires IsRun(s, ts) && n <= |ts|
  {
    exists j :: i < j < n && BumpAt(s, ts, j)
  }

  // The emptiness test saw the p_wpos of that moment, and p_wpos has moved since exactly when the
  // writer has done a p_wpos++ since.
  ghost predicate Since(s: State, ts: seq<Step>, i: nat, n: nat)
    requires IsRun(s, ts) && n <= |ts|
  {
    var s' := StateAt(s, ts, n);
    && LastTest(s, ts, i, n) && Emptied(s'.reader) && s'.reader.seen <= s'.wpos
    && (s'.reader.seen < s'.wpos <==> BumpBetween(s, ts, i, n))
  }

  // What one step does to the reader's point and to p_wpos.
  lemma SinceStep(s: State, t: Step)
    requires Inv(s) && Enabled(s, t)
    ensures var s' := Apply(s, t);
      && s'.wpos == s.wpos + (if t.Writing? && s.writer.WBump? then 1 else 0)
      && (Emptied(s'.reader) && t.Reading? && s.reader.RTest? ==> s'.reader.seen == s'.wpos)
      && (Emptied(s'.reader) && !(t.Reading? && s.reader.RTest?) ==>
            Emptied(s.reader) && s'.reader.seen == s.reader.seen)
  {
    hide RingOk, ReaderOk, EndsOk;
  }

  lemma SinceNext(s: State, ts: seq<Step>, i: nat, n: nat)
    requires IsRun(s, ts) && n < |ts| && Since(s, ts, i, n) && !TestAt(s, ts, n)
    requires Emptied(StateAt(s, ts, n + 1).reader)
    requires StateAt(s, ts, n + 1).reader.seen == StateAt(s, ts, n).reader.seen
    requires StateAt(s, ts, n + 1).wpos == StateAt(s, ts, n).wpos + (if BumpAt(s, ts, n) then 1 else 0)
    ensures Since(s, ts, i, n + 1)
  {
    hide TestAt, BumpAt, StateAt;
    if BumpBetween(s, ts, i, n) {
      var j :| i < j < n && BumpAt(s, ts, j);
      assert i < j < n + 1 && BumpAt(s, ts, j);
    }
    if BumpAt(s, ts, n) {
      assert i < n < n + 1 && BumpAt(s, ts, n);
    } else if BumpBetween(s, ts, i, n + 1) {
      var j :| i < j < n + 1 && BumpAt(s, ts, j);
      assert i < j < n && BumpAt(s, ts, j);
    }
  }

  lemma {:induction false} LastTestExists(s: State, ts: seq<Step>, n: nat) returns (i: nat)
    requires Init(s) && IsRun(s, ts) && n <= |ts| && Emptied(StateAt(s, ts, n).reader)
    ensures Since(s, ts, i, n)
    decreases n
  {
    assert n > 0;
    StateAtNext(s, ts, n - 1);
    SinceStep(StateAt(s, ts, n - 1), ts[n - 1]);
    if TestAt(s, ts, n - 1) {
      i := n - 1;
      assert !BumpBetween(s, ts, i, n);
    } else {
      i := LastTestExists(s, ts, n - 1);
      SinceNext(s, ts, i, n - 1);
    }
  }

  // End of file does not mean the ring is empty.  Whenever the closed test (line 124) reports it,
  // bytes are left over exactly when the writer did a p_wpos++ after the reader's last emptiness
  // test (line 118).
  lemma EofLeavesBytesIff(s: State, ts: seq<Step>)
    requires Init(s) && IsRun(s, ts)
    requires Exec(s, ts).reader.RClosed? && Enabled(Exec(s, ts), Reading(true))
    ensures |Exec(s, ts).buf| == PIPEBUFSIZ && Apply(Exec(s, ts), Reading(true)).eof
    ensures exists i ::
      && LastTest(s, ts, i, |ts|)
      && (BumpBetween(s, ts, i, |ts|) <==>
            var s' := Apply(Exec(s, ts), Reading(true)); s'.rpos < s'.wpos)
  {
    hide LastTest, BumpBetween;
    RunInv(s, ts);
    StateAtEnd(s, ts);
    var i := LastTestExists(s, ts, |ts|);
  }

  lemma RunCons(s: State, t: Step, ts: seq<Step>)
    requires |s.buf| == PIPEBUFSIZ && Enabled(s, t) && IsRun(Apply(s, t), ts)
    ensures IsRun(s, [t] + ts) && Exec(s, [t] + ts) == Exec(Apply(s, t), ts)
  {
    assert ([t] + ts)[1..] == ts;
  }

  lemma {:induction false} RunConcat(s: State, a: seq<Step>, b: seq<Step>)
    requires IsRun(s, a) && IsRun(Exec(s, a), b)
    ensures IsRun(s, a + b) && Exec(s, a + b) == Exec(Exec(s, a), b)
    decreases |a|
  {
    if a == [] {
      assert a + b == b;
    } else {
      RunConcat(Apply(s, a[0]), a[1..], b);
      assert (a + b)[0] == a[0] && (a + b)[1..] == a[1..] + b;
    }
  }

  lemma Chain2(s: State, a: Step, b: Step, s': State, ts: seq<Step>)
    requires |s.buf| == PIPEBUFSIZ && Enabled(s, a) && Enabled(Apply(s, a), b)
    requires |Apply(s, a).buf| == PIPEBUFSIZ
    requires Apply(Apply(s, a), b) == s' && IsRun(s', ts)
    ensures IsRun(s, [a, b] + ts) && Exec(s, [a, b] + ts) == Exec(s', ts)
  {
    RunCons(Apply(s, a), b, ts);
    RunCons(s, a, [b] + ts);
    assert [a] + ([b] + ts) == [a, b] + ts;
  }

  // Its end: the writer, with its byte stored, moves p_wpos and closes; the reader asks again.
  lemma EofTail(s: State, b: Byte) returns (ts: seq<Step>)
    requires Init(s)
    ensures var s2 := s.(reader := RClosed(1, 0), writer := WBump([b], 0), buf := s.buf[0 := b]);
      IsRun(s2, ts) && Exec(s2, ts).eof && Exec(s2, ts).rpos < Exec(s2, ts).wpos
  {
    var s2 := s.(reader := RClosed(1, 0), writer := WBump([b], 0), buf := s.buf[0 := b]);
    var s3 := s2.(writer := WReturn([b], 1), wpos := 1, written := [b]);
    var s4 := s3.(writer := WIdle, writeOpen := false);
    assert Apply(s4, Reading(true)) == s4.(reader := RReturn(1, 0), eof := true);
    RunCons(s4, Reading(true), []);
    Chain2(s3, Writing(false), CloseWriter, s4, [Reading(true)]);
    ts := [Writing(false), CloseWriter] + [Reading(true)];
    Chain2(s2, Writing(false), Writing(false), s3, ts);
    ts := [Writing(false), Writing(false)] + ts;
  }

  // Such a run: the reader finds the ring empty, the writer writes one byte and closes, the reader
  // finds the pipe closed and reports end of file with the byte still in the ring.
  lemma EofWithAByteLeft(s: State, b: Byte)
    requires Init(s)
    ensures exists ts :: IsRun(s, ts) && Exec(s, ts).eof && Exec(s, ts).rpos < Exec(s, ts).wpos
  {
    var w1 := EofTail(s, b);
    var s1 := s.(reader := RClosed(1, 0));
    var s2 := s1.(writer := WBump([b], 0), buf := s.buf[0 := b]);
    assert Apply(s1.(writer := WTest([b], 0)), Writing(false)) == s1.(writer := WStore([b], 0));
    Chain2(s1.(writer := WTest([b], 0)), Writing(false), Writing(false), s2, w1);
    var w0 := [Writing(false), Writing(false)] + w1;
    Chain2(s1, Write([b]), Writing(false), s1.(writer := WTest([b], 0)), w0);
    var r2 := [Write([b]), Writing(false)] + w0;
    Chain2(s.(reader := RTest(1, 0)), Reading(false), Reading(false), s1, r2);
    var r1 := [Reading(false), Reading(false)] + r2;
    Chain2(s, Read(1), Reading(false), s.(reader := RTest(1, 0)), r1);
  }
}
