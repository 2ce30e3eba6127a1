// The two pipe models as one machine: the ring of PipeFifo and the descriptor tables of PipeClose.
// Whether an end is still open is no longer an input: the answer a blocked reader or writer gets is
// the one _pipeisclosed computes from the reference counts at that moment, in its own environment.
module PipeJoint {
  import F = PipeFifo
  import C = PipeClose

  // While the ring's reader is inside devpipe_read, it is environment re on descriptor ri; likewise
  // the writer.
  datatype State = State(f: F.State, c: C.State, re: nat, ri: nat, we: nat, wi: nat)

  datatype Step =
    | Read(i: nat, n: nat)               // the current environment calls devpipe_read
    | Reading                            // its next statement, other than the closed test
    | ReadAsked                          // _pipeisclosed returns to devpipe_read
    | Write(i: nat, data: seq<F.Byte>)
    | Writing
    | WriteAsked
    | Desc(t: C.Step)                    // descriptors, scheduling, and the loads of _pipeisclosed

  predicate ReadsIn(s: State, e: nat) {
    !s.f.reader.RIdle? && s.re == e
  }

  predicate WritesIn(s: State, e: nat) {
    !s.f.writer.WIdle? && s.we == e
  }

  // Between the statements of a call an environment does nothing else, except to run _pipeisclosed
  // where the call does.
  predicate InCall(s: State, t: C.Step)
    requires C.Wf(s.c)
  {
    match t
    case IsClosed(i) =>
      || (ReadsIn(s, s.c.current) && s.f.reader.RClosed? && i == s.ri)
      || (WritesIn(s, s.c.current) && s.f.writer.WFull? && i == s.wi)
    case Advance => !C.Returning(s.c)
    case Switch(_) => true
    case _ => false
  }

  predicate AtEase(s: State)
    requires C.Wf(s.c)
  {
    C.PcNow(s.c).Idle? && !ReadsIn(s, s.c.current) && !WritesIn(s, s.c.current)
  }

  predicate Enabled(s: State, t: Step) {
    C.Wf(s.c) && |s.f.buf| == F.PIPEBUFSIZ &&
    match t
    case Read(i, n) => AtEase(s) && s.f.reader.RIdle? && i < C.MAXFD && C.Tab(s.c)[i].fd == C.ReadFd
    case Reading => C.PcNow(s.c).Idle? && ReadsIn(s, s.c.current) && !s.f.reader.RClosed?
    case ReadAsked => ReadsIn(s, s.c.current) && s.f.reader.RClosed? && C.Returning(s.c)
    case Write(i, data) => AtEase(s) && s.f.writer.WIdle? && i < C.MAXFD && C.Tab(s.c)[i].fd == C.WriteFd
    case Writing =>
      && C.PcNow(s.c).Idle? && WritesIn(s, s.c.current) && !s.f.writer.WFull?
      && (s.f.writer.WBump? ==> s.f.wpos + 1 < F.OFFMAX)
    case WriteAsked => WritesIn(s, s.c.current) && s.f.writer.WFull? && C.Returning(s.c)
    case Desc(d) =>
      && C.Enabled(s.c, d)
      && (ReadsIn(s, s.c.current) || WritesIn(s, s.c.current) ==> InCall(s, d))
  }

  predicate Kills(d: C.Step, e: nat) {
    d.Destroy? && d.target == e
  }

  // What the descriptor step means for the ring: a destroyed environment leaves its call, and an end
  // is closed as soon as no environment maps it.
  function Ends(s: State, d: C.Step, tabs: seq<C.Table>): seq<F.Step> {
    (if !s.f.reader.RIdle? && Kills(d, s.re) then [F.AbortRead] else [])
    + (if !s.f.writer.WIdle? && Kills(d, s.we) then [F.AbortWrite] else [])
    + (if s.f.readOpen && C.Refs(tabs, C.KRead) == 0 then [F.CloseReader] else [])
    + (if s.f.writeOpen && C.Refs(tabs, C.KWrite) == 0 then [F.CloseWriter] else [])
  }

  function AfterDesc(s: State, d: C.Step, tabs: seq<C.Table>): F.State {
    var gone := !s.f.reader.RIdle? && Kills(d, s.re);
    s.f.(
      reader := if gone then F.RIdle else s.f.reader,
      delivered := if gone then F.Counted(s.f) else s.f.delivered,
      writer := if Kills(d, s.we) then F.WIdle else s.f.writer,
      readOpen := s.f.readOpen && C.Refs(tabs, C.KRead) > 0,
      writeOpen := s.f.writeOpen && C.Refs(tabs, C.KWrite) > 0)
  }

  // The program point of the current environment once _pipeisclosed has returned.
  function Returned(c: C.State): C.State
    requires C.Wf(c)
  {
    C.Goto(c, C.Idle)
  }

  function Apply(s: State, t: Step): State
    requires Enabled(s, t)
  {
    match t
    case Read(i, n) =>
      s.(f := s.f.(reader := F.RLoop(n, 0), start := |s.f.delivered|), re := s.c.current, ri := i)
    case Reading => s.(f := F.ReaderStep(s.f, false))
    case ReadAsked => s.(f := F.ReaderStep(s.f, C.Answer(s.c)), c := Returned(s.c))
    case Write(i, data) => s.(f := s.f.(writer := F.WLoop(data, 0)), we := s.c.current, wi := i)
    case Writing => s.(f := F.WriterStep(s.f, false))
    case WriteAsked => s.(f := F.WriterStep(s.f, C.Answer(s.c)), c := Returned(s.c))
    case Desc(d) =>
      var c := C.Apply(s.c, d);
      s.(f := AfterDesc(s, d, c.tabs), c := c)
  }

  // ------------------------------------------------------------------
  // Invariant
  // ------------------------------------------------------------------

  predicate PcAsks(pc: C.Pc, i: nat) {
    (pc.Check? || pc.CheckRuns? || pc.CheckFd? || pc.CheckPipe?) && pc.i == i
  }

  // An environment inside a call still maps the descriptor it was called with.
  predicate CallOk(c: C.State, e: nat, i: nat, fd: C.FdPage, asking: bool)
    requires C.Wf(c)
  {
    && e < |c.pcs| && i < C.MAXFD && c.tabs[e][i].fd == fd
    && (c.pcs[e].Idle? || (asking && PcAsks(c.pcs[e], i)))
  }

  predicate ReaderOk(f: F.State, c: C.State, re: nat, ri: nat)
    requires C.Wf(c)
  {
    !f.reader.RIdle? ==> CallOk(c, re, ri, C.ReadFd, f.reader.RClosed?)
  }

  predicate WriterOk(f: F.State, c: C.State, we: nat, wi: nat)
    requires C.Wf(c)
  {
    !f.writer.WIdle? ==> CallOk(c, we, wi, C.WriteFd, f.writer.WFull?)
  }

  predicate OpenOk(f: F.State, c: C.State) {
    && (f.readOpen <==> C.Refs(c.tabs, C.KRead) > 0)
    && (f.writeOpen <==> C.Refs(c.tabs, C.KWrite) > 0)
  }

  ghost predicate Inv(s: State) {
    && C.Inv(s.c) && F.Inv(s.f) && OpenOk(s.f, s.c)
    && ReaderOk(s.f, s.c, s.re, s.ri) && WriterOk(s.f, s.c, s.we, s.wi)
    && (!s.f.reader.RIdle? && !s.f.writer.WIdle? ==> s.re != s.we)
  }

  // The state pipe() leaves: an empty ring, both ends in environment e.
  predicate Init(s: State, e: nat, r: nat, w: nat) {
    F.Init(s.f) && C.AfterPipe(s.c, e, r, w)
  }

  lemma MappedCounts(tabs: seq<C.Table>, e: nat, i: nat, k: C.Kind)
    requires e < |tabs| && i < C.MAXFD && C.Names(tabs[e][i], k)
    ensures C.Refs(tabs, k) > 0
  {
    C.RefsZero(tabs, k);
  }

  lemma InitInv(s: State, e: nat, r: nat, w: nat)
    requires Init(s, e, r, w)
    ensures Inv(s)
  {
    C.AfterPipeInv(s.c, e, r, w);
    MappedCounts(s.c.tabs, e, r, C.KRead);
    MappedCounts(s.c.tabs, e, w, C.KWrite);
  }

  // ------------------------------------------------------------------
  // One joint step is a run of each model
  // ------------------------------------------------------------------

  function RingSteps(s: State, t: Step): seq<F.Step>
    requires Enabled(s, t)
  {
    match t
    case Read(i, n) => [F.Read(n)]
    case Reading => [F.Reading(false)]
    case ReadAsked => [F.Reading(C.Answer(s.c))]
    case Write(i, data) => [F.Write(data)]
    case Writing => [F.Writing(false)]
    case WriteAsked => [F.Writing(C.Answer(s.c))]
    case Desc(d) => Ends(s, d, C.Apply(s.c, d).tabs)
  }

  function DescSteps(s: State, t: Step): seq<C.Step>
    requires Enabled(s, t)
  {
    match t
    case Desc(d) => [d]
    case ReadAsked => [C.Advance]
    case WriteAsked => [C.Advance]
    case _ => []
  }

  // Its own environment may only run _pipeisclosed; the others cannot touch its table.
  lemma CallKeeps(c: C.State, d: C.Step, e: nat, i: nat, fd: C.FdPage, asking: bool)
    requires C.Inv(c) && C.Enabled(c, d) && CallOk(c, e, i, fd, asking) && !Kills(d, e)
    requires c.current == e ==> d.Switch? || (d == C.IsClosed(i) && asking) || (d.Advance? && !C.Returning(c))
    ensures C.Wf(C.Apply(c, d)) && CallOk(C.Apply(c, d), e, i, fd, asking)
  {
    assert C.EnvOk(c, c.current);
    if c.current != e {
      assert !C.Reaches(c, d, e);
      C.OtherUntouched(c, d, e);
    }
  }

  lemma CallsKeep(s: State, d: C.Step)
    requires Inv(s) && Enabled(s, Desc(d))
    ensures C.Inv(C.Apply(s.c, d))
    ensures !s.f.reader.RIdle? && !Kills(d, s.re) ==>
      CallOk(C.Apply(s.c, d), s.re, s.ri, C.ReadFd, s.f.reader.RClosed?)
    ensures !s.f.writer.WIdle? && !Kills(d, s.we) ==>
      CallOk(C.Apply(s.c, d), s.we, s.wi, C.WriteFd, s.f.writer.WFull?)
  {
    hide F.Inv;
    C.InvStep(s.c, d);
    if !s.f.reader.RIdle? && !Kills(d, s.re) {
      CallKeeps(s.c, d, s.re, s.ri, C.ReadFd, s.f.reader.RClosed?);
    }
    if !s.f.writer.WIdle? && !Kills(d, s.we) {
      CallKeeps(s.c, d, s.we, s.wi, C.WriteFd, s.f.writer.WFull?);
    }
  }

  // An end in use is mapped.
  lemma InUseIsMapped(f: F.State, c: C.State, re: nat, ri: nat, we: nat, wi: nat)
    requires C.Wf(c) && ReaderOk(f, c, re, ri) && WriterOk(f, c, we, wi)
    ensures C.Refs(c.tabs, C.KRead) == 0 ==> f.reader.RIdle?
    ensures C.Refs(c.tabs, C.KWrite) == 0 ==> f.writer.WIdle?
  {
    if !f.reader.RIdle? {
      MappedCounts(c.tabs, re, ri, C.KRead);
    }
    if !f.writer.WIdle? {
      MappedCounts(c.tabs, we, wi, C.KWrite);
    }
  }

  // An end unmapped everywhere is never mapped again.
  lemma RefsStay(c: C.State, d: C.Step, k: C.Kind)
    requires C.Inv(c) && C.Enabled(c, d) && !k.KPipe? && C.Refs(c.tabs, k) == 0
    ensures C.Refs(C.Apply(c, d).tabs, k) == 0
  {
    C.RefsZero(c.tabs, k);
    C.UnmappedStep(c, d, k);
    C.RefsZero(C.Apply(c, d).tabs, k);
  }

  lemma Optional(f: F.State, b: bool, t: F.Step)
    requires b ==> |f.buf| == F.PIPEBUFSIZ && F.Enabled(f, t)
    ensures var ts := if b then [t] else [];
      F.IsRun(f, ts) && F.Exec(f, ts) == if b then F.Apply(f, t) else f
  {
    if b {
      F.RunCons(f, t, []);
      assert [t] + [] == [t];
    }
  }

  lemma DescRing(s: State, d: C.Step)
    requires Inv(s) && Enabled(s, Desc(d))
    ensures var tabs := C.Apply(s.c, d).tabs;
      F.IsRun(s.f, Ends(s, d, tabs)) && F.Exec(s.f, Ends(s, d, tabs)) == AfterDesc(s, d, tabs)
  {
    CallsKeep(s, d);
    var c := C.Apply(s.c, d);
    var noRead, noWrite := C.Refs(c.tabs, C.KRead) == 0, C.Refs(c.tabs, C.KWrite) == 0;
    var b1, b2 := !s.f.reader.RIdle? && Kills(d, s.re), !s.f.writer.WIdle? && Kills(d, s.we);
    var b3, b4 := s.f.readOpen && noRead, s.f.writeOpen && noWrite;
    var f1 := if b1 then F.Apply(s.f, F.AbortRead) else s.f;
    var f2 := if b2 then F.Apply(f1, F.AbortWrite) else f1;
    InUseIsMapped(f2, c, s.re, s.ri, s.we, s.wi);
    var f3 := if b3 then F.Apply(f2, F.CloseReader) else f2;
    var a1, a2 := (if b1 then [F.AbortRead] else []), (if b2 then [F.AbortWrite] else []);
    var a3, a4 := (if b3 then [F.CloseReader] else []), (if b4 then [F.CloseWriter] else []);
    Optional(s.f, b1, F.AbortRead);
    Optional(f1, b2, F.AbortWrite);
    Optional(f2, b3, F.CloseReader);
    Optional(f3, b4, F.CloseWriter);
    F.RunConcat(s.f, a1, a2);
    F.RunConcat(s.f, a1 + a2, a3);
    F.RunConcat(s.f, a1 + a2 + a3, a4);
  }

  // The answer of _pipeisclosed is the truth about the ring's other end: closed only if it is closed.
  lemma AnswerIsRight(s: State)
    requires Inv(s) && C.Returning(s.c)
    requires (ReadsIn(s, s.c.current) && s.f.reader.RClosed?) || (WritesIn(s, s.c.current) && s.f.writer.WFull?)
    ensures C.Answer(s.c) && ReadsIn(s, s.c.current) ==> !s.f.writeOpen
    ensures C.Answer(s.c) && WritesIn(s, s.c.current) ==> !s.f.readOpen
  {
    if C.Answer(s.c) {
      C.AnswerMeansUnmapped(s.c);
    }
  }

  lemma RingStep(s: State, t: Step)
    requires Inv(s) && Enabled(s, t)
    ensures F.IsRun(s.f, RingSteps(s, t)) && F.Exec(s.f, RingSteps(s, t)) == Apply(s, t).f
  {
    match t
    case Read(i, n) =>
      MappedCounts(s.c.tabs, s.c.current, i, C.KRead);
      Optional(s.f, true, F.Read(n));
    case Reading => Optional(s.f, true, F.Reading(false));
    case ReadAsked =>
      AnswerIsRight(s);
      Optional(s.f, true, F.Reading(C.Answer(s.c)));
    case Write(i, data) =>
      MappedCounts(s.c.tabs, s.c.current, i, C.KWrite);
      Optional(s.f, true, F.Write(data));
    case Writing => Optional(s.f, true, F.Writing(false));
    case WriteAsked =>
      AnswerIsRight(s);
      Optional(s.f, true, F.Writing(C.Answer(s.c)));
    case Desc(d) => DescRing(s, d);
  }

  lemma DescStep(s: State, t: Step)
    requires Inv(s) && Enabled(s, t)
    ensures C.IsRun(s.c, DescSteps(s, t)) && C.Exec(s.c, DescSteps(s, t)) == Apply(s, t).c
  {
    if t.Desc? || t.ReadAsked? || t.WriteAsked? {
      var d := if t.Desc? then t.t else C.Advance;
      assert C.EnvOk(s.c, s.c.current);
      assert C.Enabled(s.c, d) && C.Apply(s.c, d) == Apply(s, t).c;
      assert [d][1..] == [];
    }
  }

  lemma DescInv(s: State, d: C.Step)
    requires Inv(s) && Enabled(s, Desc(d))
    ensures var s' := Apply(s, Desc(d));
      && C.Inv(s'.c) && OpenOk(s'.f, s'.c)
      && ReaderOk(s'.f, s'.c, s'.re, s'.ri) && WriterOk(s'.f, s'.c, s'.we, s'.wi)
  {
    CallsKeep(s, d);
    if C.Refs(s.c.tabs, C.KRead) == 0 {
      RefsStay(s.c, d, C.KRead);
    }
    if C.Refs(s.c.tabs, C.KWrite) == 0 {
      RefsStay(s.c, d, C.KWrite);
    }
  }

  // The other statements leave the tables alone; _pipeisclosed returns to the call it was made from.
  lemma StatementInv(s: State, t: Step)
    requires Inv(s) && Enabled(s, t) && !t.Desc?
    ensures var s' := Apply(s, t);
      && C.Inv(s'.c) && OpenOk(s'.f, s'.c)
      && ReaderOk(s'.f, s'.c, s'.re, s'.ri) && WriterOk(s'.f, s'.c, s'.we, s'.wi)
  {
    DescStep(s, t);
    C.RunInv(s.c, DescSteps(s, t));
  }

  lemma InvStep(s: State, t: Step)
    requires Inv(s) && Enabled(s, t)
    ensures Inv(Apply(s, t))
  {
    RingStep(s, t);
    F.RunInv(s.f, RingSteps(s, t));
    if t.Desc? {
      DescInv(s, t.t);
    } else {
      StatementInv(s, t);
    }
  }

  // ------------------------------------------------------------------
  // Whole runs
  // ------------------------------------------------------------------

  predicate IsRun(s: State, ts: seq<Step>)
    decreases |ts|
  {
    ts == [] || (Enabled(s, ts[0]) && IsRun(Apply(s, ts[0]), ts[1..]))
  }

  function Exec(s: State, ts: seq<Step>): State
    requires IsRun(s, ts)
    decreases |ts|
  {
    if ts == [] then s else Exec(Apply(s, ts[0]), ts[1..])
  }

  function RingRun(s: State, ts: seq<Step>): seq<F.Step>
    requires IsRun(s, ts)
    decreases |ts|
  {
    if ts == [] then [] else RingSteps(s, ts[0]) + RingRun(Apply(s, ts[0]), ts[1..])
  }

  function DescRun(s: State, ts: seq<Step>): seq<C.Step>
    requires IsRun(s, ts)
    decreases |ts|
  {
    if ts == [] then [] else DescSteps(s, ts[0]) + DescRun(Apply(s, ts[0]), ts[1..])
  }

  lemma {:induction false} RunInv(s: State, ts: seq<Step>)
    requires Inv(s) && IsRun(s, ts)
    ensures Inv(Exec(s, ts))
    decreases |ts|
  {
    if ts != [] {
      InvStep(s, ts[0]);
      RunInv(Apply(s, ts[0]), ts[1..]);
    }
  }

  // Every joint run is a run of the ring and a run of the descriptor tables: what PipeFifo asks of
  // the answers of _pipeisclosed, and what closes its ends, is what the reference counts deliver.
  lemma {:induction false} RunProjects(s: State, ts: seq<Step>)
    requires Inv(s) && IsRun(s, ts)
    ensures F.IsRun(s.f, RingRun(s, ts)) && F.Exec(s.f, RingRun(s, ts)) == Exec(s, ts).f
    ensures C.IsRun(s.c, DescRun(s, ts)) && C.Exec(s.c, DescRun(s, ts)) == Exec(s, ts).c
    decreases |ts|
  {
    if ts != [] {
      InvStep(s, ts[0]);
      RunProjects(Apply(s, ts[0]), ts[1..]);
      RingStep(s, ts[0]);
      DescStep(s, ts[0]);
      F.RunConcat(s.f, RingSteps(s, ts[0]), RingRun(Apply(s, ts[0]), ts[1..]));
      C.RunConcat(s.c, DescSteps(s, ts[0]), DescRun(Apply(s, ts[0]), ts[1..]));
    }
  }

  // After pipe(), whatever the environments do with their descriptors and however the statements
  // interleave: the bytes arrive in order, and once a read has reported end of file no environment
  // maps the write end and not one byte more is ever written.
  lemma EndOfFileIsReal(s: State, e: nat, r: nat, w: nat, ts: seq<Step>, later: seq<Step>)
    requires Init(s, e, r, w) && IsRun(s, ts) && IsRun(Exec(s, ts), later)
    ensures Exec(s, ts).f.delivered <= Exec(s, ts).f.written
    ensures Exec(s, ts).f.eof ==>
      && C.Refs(Exec(Exec(s, ts), later).c.tabs, C.KWrite) == 0
      && Exec(Exec(s, ts), later).f.written == Exec(s, ts).f.written
  {
    InitInv(s, e, r, w);
    RunInv(s, ts);
    var s' := Exec(s, ts);
    RunProjects(s', later);
    if s'.f.eof {
      F.EofIsFinal(s'.f, RingRun(s', later));
      C.StaysUnmapped(s'.c, DescRun(s', later), C.KWrite);
    }
  }

  // A call asking about its other end is told "closed" only when no environment maps that end.
  lemma ClosedAnswerIsTrue(s: State, e: nat, r: nat, w: nat, ts: seq<Step>)
    requires Init(s, e, r, w) && IsRun(s, ts)
    ensures var s' := Exec(s, ts);
      && (Enabled(s', ReadAsked) && C.Answer(s'.c) ==> !s'.f.writeOpen && C.Refs(s'.c.tabs, C.KWrite) == 0)
      && (Enabled(s', WriteAsked) && C.Answer(s'.c) ==> !s'.f.readOpen && C.Refs(s'.c.tabs, C.KRead) == 0)
  {
    InitInv(s, e, r, w);
    RunInv(s, ts);
    var s' := Exec(s, ts);
    if Enabled(s', ReadAsked) || Enabled(s', WriteAsked) {
      AnswerIsRight(s');
    }
  }
}
