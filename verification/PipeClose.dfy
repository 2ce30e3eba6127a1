// End-of-file detection on pipes: _pipeisclosed compares the reference counts of the file
// descriptor page and of the pipe page (lib/pipe.c, lib/fd.c, lib/fork.c), on one CPU.
//
// Every transition is one map or unmap system call, one load, or one scheduling decision of the
// kernel.  The state describes one pipe after pipe() has returned.
module PipeClose {

  const MAXFD: nat := 32

  // What a descriptor page or a data page of one environment maps.
  datatype FdPage = NoFd | ReadFd | WriteFd | OtherFd
  datatype DataPage = NoData | PipePage | OtherData
  datatype Slot = Slot(fd: FdPage, data: DataPage)

  type Table = t: seq<Slot> | |t| == MAXFD witness seq(MAXFD, _ => Slot(NoFd, NoData))

  // What follows a close(): return to the program, or go on with dup(src, i).
  datatype Cont = Return | DupFrom(src: nat)

  // Where an environment stands inside the library.
  datatype Pc =
    | Dead
    | Embryo                                  // created by sys_exofork, not yet runnable
    | Idle
    | CloseFd(i: nat, k: Cont)                // devpipe_close, first unmap
    | CloseData(i: nat, k: Cont)              // devpipe_close, second unmap
    | CloseAgain(i: nat, k: Cont)             // fd_close's own unmap
    | DupData(src: nat, dst: nat)
    | DupFd(src: nat, dst: nat)
    | DupErrFd(dst: nat)
    | DupErrData(dst: nat)
    | Forking(child: nat, done: nat)          // pages of the descriptor area already duplicated
    | Check(i: nat)                           // _pipeisclosed, top of the loop
    | CheckRuns(i: nat, n: nat)
    | CheckFd(i: nat, n: nat, fdRefs: nat)
    | CheckPipe(i: nat, n: nat, fdRefs: nat, pipeRefs: nat)

  datatype State = State(tabs: seq<Table>, pcs: seq<Pc>, runs: seq<nat>, current: nat)

  datatype Step =
    | Close(i: nat)
    | Dup(src: nat, dst: nat)
    | Fork(child: nat)
    | OpenOther(i: nat, withData: bool)       // some other device takes a free descriptor
    | IsClosed(i: nat)
    | Advance                                 // next instruction of the current environment
    | Destroy(target: nat)                    // env_free removes every mapping in one kernel entry
    | Switch(e: nat)                          // env_run(e)

  // ------------------------------------------------------------------
  // Reference counts
  // ------------------------------------------------------------------

  datatype Kind = KRead | KWrite | KPipe

  predicate Names(sl: Slot, k: Kind) {
    match k
    case KRead => sl.fd == ReadFd
    case KWrite => sl.fd == WriteFd
    case KPipe => sl.data == PipePage
  }

  function InTable(t: seq<Slot>, k: Kind): nat {
    if t == [] then 0 else (if Names(t[0], k) then 1 else 0) + InTable(t[1..], k)
  }

  // pp_ref of the page: its mappings over all environments.
  function Refs(tabs: seq<Table>, k: Kind): nat {
    if tabs == [] then 0 else InTable(tabs[0], k) + Refs(tabs[1..], k)
  }

  predicate IsPipeFd(fd: FdPage) {
    fd == ReadFd || fd == WriteFd
  }

  function KindOf(fd: FdPage): Kind {
    if fd == ReadFd then KRead else KWrite
  }

  function OtherEnd(k: Kind): Kind {
    match k
    case KRead => KWrite
    case KWrite => KRead
    case KPipe => KPipe
  }

  // ------------------------------------------------------------------
  // Transitions
  // ------------------------------------------------------------------

  predicate Wf(s: State) {
    |s.tabs| == |s.pcs| == |s.runs| && s.current < |s.pcs|
  }

  function PcNow(s: State): Pc
    requires Wf(s)
  {
    s.pcs[s.current]
  }

  function Tab(s: State): Table
    requires Wf(s)
  {
    s.tabs[s.current]
  }

  function Goto(s: State, pc: Pc): State
    requires Wf(s)
  {
    s.(pcs := s.pcs[s.current := pc])
  }

  function SetTab(s: State, e: nat, t: Table): State
    requires e < |s.tabs|
  {
    s.(tabs := s.tabs[e := t])
  }

  function UnmapFd(t: Table, i: nat): Table
    requires i < MAXFD
  {
    t[i := t[i].(fd := NoFd)]
  }

  function UnmapData(t: Table, i: nat): Table
    requires i < MAXFD
  {
    t[i := t[i].(data := NoData)]
  }

  function EmptyTable(): Table {
    seq(MAXFD, _ => Slot(NoFd, NoData))
  }

  function AfterClose(i: nat, k: Cont): Pc {
    match k
    case Return => Idle
    case DupFrom(src) => DupData(src, i)
  }

  // close(i): nothing to do unless the descriptor page is mapped.
  function BeginClose(t: Table, i: nat, k: Cont): Pc
    requires i < MAXFD
  {
    if t[i].fd == NoFd then AfterClose(i, k)
    else if IsPipeFd(t[i].fd) then CloseFd(i, k)
    else CloseAgain(i, k)
  }

  predicate PcInRange(pc: Pc, n: nat) {
    match pc
    case CloseFd(i, k) => i < MAXFD && (k.DupFrom? ==> k.src < MAXFD)
    case CloseData(i, k) => i < MAXFD && (k.DupFrom? ==> k.src < MAXFD)
    case CloseAgain(i, k) => i < MAXFD && (k.DupFrom? ==> k.src < MAXFD)
    case DupData(src, dst) => src < MAXFD && dst < MAXFD
    case DupFd(src, dst) => src < MAXFD && dst < MAXFD
    case DupErrFd(dst) => dst < MAXFD
    case DupErrData(dst) => dst < MAXFD
    case Forking(child, done) => child < n && done <= 2 * MAXFD
    case Check(i) => i < MAXFD
    case CheckRuns(i, _) => i < MAXFD
    case CheckFd(i, _, _) => i < MAXFD
    case CheckPipe(i, _, _, _) => i < MAXFD
    case _ => true
  }

  predicate Enabled(s: State, t: Step)
    requires Wf(s)
  {
    PcInRange(PcNow(s), |s.pcs|) &&
    match t
    case Close(i) => PcNow(s) == Idle && i < MAXFD
    case Dup(src, dst) => PcNow(s) == Idle && src < MAXFD && dst < MAXFD
    case Fork(child) => PcNow(s) == Idle && child < |s.pcs| && s.pcs[child] == Dead
    case OpenOther(i, _) => PcNow(s) == Idle && i < MAXFD && Tab(s)[i].fd == NoFd
    case IsClosed(i) => PcNow(s) == Idle && i < MAXFD && IsPipeFd(Tab(s)[i].fd)
    case Advance => !PcNow(s).Dead? && !PcNow(s).Embryo? && !PcNow(s).Idle?
    case Destroy(target) =>
      PcNow(s) == Idle && target < |s.pcs| && !s.pcs[target].Dead? && !s.pcs[target].Embryo?
    case Switch(e) => e < |s.pcs| && !s.pcs[e].Dead? && !s.pcs[e].Embryo?
  }

  // fork() walks down from the stack: the data pages lie above the descriptor pages.
  function ForkCopy(child: Table, parent: Table, done: nat): Table
    requires done < 2 * MAXFD
  {
    if done < MAXFD then
      var i := MAXFD - 1 - done;
      if parent[i].data == NoData then child else child[i := child[i].(data := parent[i].data)]
    else
      var i := 2 * MAXFD - 1 - done;
      if parent[i].fd == NoFd then child else child[i := child[i].(fd := parent[i].fd)]
  }

  function AdvanceState(s: State): State
    requires Wf(s) && Enabled(s, Advance)
  {
    var e, t := s.current, Tab(s);
    match PcNow(s)
    case CloseFd(i, k) => Goto(SetTab(s, e, UnmapFd(t, i)), CloseData(i, k))
    case CloseData(i, k) => Goto(SetTab(s, e, UnmapData(t, i)), CloseAgain(i, k))
    case CloseAgain(i, k) => Goto(SetTab(s, e, UnmapFd(t, i)), AfterClose(i, k))
    case DupData(src, dst) =>
      var t' := if t[src].data == NoData then t else t[dst := t[dst].(data := t[src].data)];
      Goto(SetTab(s, e, t'), DupFd(src, dst))
    case DupFd(src, dst) =>
      if t[src].fd == NoFd then Goto(s, DupErrFd(dst))
      else Goto(SetTab(s, e, t[dst := t[dst].(fd := t[src].fd)]), Idle)
    case DupErrFd(dst) => Goto(SetTab(s, e, UnmapFd(t, dst)), DupErrData(dst))
    case DupErrData(dst) => Goto(SetTab(s, e, UnmapData(t, dst)), Idle)
    case Forking(child, done) =>
      if done < 2 * MAXFD then
        Goto(SetTab(s, child, ForkCopy(s.tabs[child], t, done)), Forking(child, done + 1))
      else
        Goto(s.(pcs := s.pcs[child := Idle]), Idle)
    case Check(i) => Goto(s, CheckRuns(i, s.runs[e]))
    case CheckRuns(i, n) => Goto(s, CheckFd(i, n, Refs(s.tabs, KindOf(t[i].fd))))
    case CheckFd(i, n, r) => Goto(s, CheckPipe(i, n, r, Refs(s.tabs, KPipe)))
    case CheckPipe(i, n, _, _) => if n == s.runs[e] then Goto(s, Idle) else Goto(s, Check(i))
    case _ => s
  }

  function Apply(s: State, t: Step): State
    requires Wf(s) && Enabled(s, t)
  {
    match t
    case Close(i) => Goto(s, BeginClose(Tab(s), i, Return))
    case Dup(src, dst) =>
      if Tab(s)[src].fd == NoFd then s else Goto(s, BeginClose(Tab(s), dst, DupFrom(src)))
    case Fork(child) =>
      Goto(SetTab(s, child, EmptyTable()).(pcs := s.pcs[child := Embryo]), Forking(child, 0))
    case OpenOther(i, withData) =>
      SetTab(s, s.current, Tab(s)[i := Slot(OtherFd, if withData then OtherData else Tab(s)[i].data)])
    case IsClosed(i) => Goto(s, Check(i))
    case Advance => AdvanceState(s)
    case Destroy(target) => SetTab(s, target, EmptyTable()).(pcs := s.pcs[target := Dead])
    case Switch(e) => s.(current := e, runs := s.runs[e := s.runs[e] + 1])
  }

  // _pipeisclosed is about to return, and what it returns.
  predicate Returning(s: State)
    requires Wf(s)
  {
    PcNow(s).CheckPipe? && Enabled(s, Advance) && AdvanceState(s).pcs[s.current] == Idle
  }

  predicate Answer(s: State)
    requires Wf(s) && Returning(s)
  {
    PcNow(s).fdRefs == PcNow(s).pipeRefs
  }

  // ------------------------------------------------------------------
  // Invariant
  // ------------------------------------------------------------------

  // A mapped pipe descriptor has its pipe page mapped: pages go in data first and out descriptor first.
  predicate Paired(sl: Slot) {
    IsPipeFd(sl.fd) ==> sl.data == PipePage
  }

  // The only slots of an environment that may hold a pipe page without a pipe descriptor.
  predicate Busy(pc: Pc, i: nat) {
    match pc
    case CloseData(j, _) => i == j
    case DupFd(_, j) => i == j
    case DupErrFd(j) => i == j
    case DupErrData(j) => i == j
    case _ => false
  }

  predicate SlotOk(pc: Pc, t: Table, i: nat)
    requires i < MAXFD
  {
    Paired(t[i]) && (t[i].data == PipePage && !pc.Embryo? && !Busy(pc, i) ==> IsPipeFd(t[i].fd))
  }

  predicate PcOk(pc: Pc, t: Table) {
    match pc
    case Dead => t == EmptyTable()
    case CloseData(i, _) => i < MAXFD && t[i].fd == NoFd
    case CloseAgain(i, _) => i < MAXFD && !IsPipeFd(t[i].fd) && t[i].data != PipePage
    case DupData(src, i) => src < MAXFD && i < MAXFD && t[i].fd == NoFd && t[i].data != PipePage
    case DupFd(src, i) =>
      src < MAXFD && i < MAXFD && t[i].fd == NoFd
      && (src != i && t[src].data != NoData ==> t[i].data == t[src].data)
      && (t[src].data == NoData ==> t[i].data != PipePage)
    case DupErrFd(i) => i < MAXFD && t[i].fd == NoFd
    case DupErrData(i) => i < MAXFD && t[i].fd == NoFd
    case Check(i) => i < MAXFD && IsPipeFd(t[i].fd)
    case CheckRuns(i, _) => i < MAXFD && IsPipeFd(t[i].fd)
    case CheckFd(i, _, _) => i < MAXFD && IsPipeFd(t[i].fd)
    case CheckPipe(i, _, _, _) => i < MAXFD && IsPipeFd(t[i].fd)
    case _ => true
  }

  // A child in the making: data pages down to MAXFD - done, then descriptor pages.
  predicate ChildOk(child: Table, parent: Table, done: nat) {
    && (forall i :: 0 <= i < MAXFD ==>
          child[i].data == (if i + done >= MAXFD then parent[i].data else NoData))
    && (forall i :: 0 <= i < MAXFD ==>
          child[i].fd == (if i + done >= 2 * MAXFD then parent[i].fd else NoFd))
  }

  predicate CheckOk(s: State, e: nat)
    requires Wf(s) && e < |s.pcs|
  {
    match s.pcs[e]
    case CheckRuns(i, n) => n <= s.runs[e]
    case CheckFd(i, n, r) =>
      n <= s.runs[e]
      && (i < MAXFD && n == s.runs[e] && s.current == e ==> r == Refs(s.tabs, KindOf(s.tabs[e][i].fd)))
    case CheckPipe(i, n, r, q) =>
      n <= s.runs[e]
      && (i < MAXFD && n == s.runs[e] && s.current == e ==>
            r == Refs(s.tabs, KindOf(s.tabs[e][i].fd)) && q == Refs(s.tabs, KPipe))
    case _ => true
  }

  predicate EnvOk(s: State, e: nat)
    requires Wf(s) && e < |s.pcs|
  {
    && PcInRange(s.pcs[e], |s.pcs|)
    && PcOk(s.pcs[e], s.tabs[e])
    && (forall i :: 0 <= i < MAXFD ==> SlotOk(s.pcs[e], s.tabs[e], i))
    && CheckOk(s, e)
    && (s.pcs[e].Forking? ==>
          var c := s.pcs[e].child;
          s.pcs[c].Embryo? && ChildOk(s.tabs[c], s.tabs[e], s.pcs[e].done))
  }

  predicate Inv(s: State) {
    && Wf(s)
    && (forall e :: 0 <= e < |s.pcs| ==> EnvOk(s, e))
    && (forall e, d :: 0 <= e < |s.pcs| && 0 <= d < |s.pcs| && e != d && s.pcs[e].Forking? && s.pcs[d].Forking? ==>
          s.pcs[e].child != s.pcs[d].child)
  }

  // The current environment's own slots after its step.
  lemma SelfSlots(s: State, t: Step, i: nat)
    requires Inv(s) && Enabled(s, t) && i < MAXFD
    ensures Wf(Apply(s, t)) && SlotOk(Apply(s, t).pcs[s.current], Apply(s, t).tabs[s.current], i)
  {
    assert EnvOk(s, s.current);
    var pc := PcNow(s);
    assert SlotOk(pc, Tab(s), i);
    if t.Advance? && pc.DupFd? {
      assert SlotOk(pc, Tab(s), pc.src);
    }
  }

  lemma SelfPcDup(s: State)
    requires Inv(s) && Enabled(s, Advance)
    requires PcNow(s).DupData? || PcNow(s).DupFd? || PcNow(s).DupErrFd? || PcNow(s).DupErrData?
    ensures var s' := AdvanceState(s);
      Wf(s') && PcInRange(s'.pcs[s.current], |s.pcs|) && PcOk(s'.pcs[s.current], s'.tabs[s.current])
  {
    assert EnvOk(s, s.current);
    if PcNow(s).DupData? {
      assert SlotOk(PcNow(s), Tab(s), PcNow(s).src);
    }
  }

  lemma SelfPcClose(s: State)
    requires Inv(s) && Enabled(s, Advance)
    requires PcNow(s).CloseFd? || PcNow(s).CloseData? || PcNow(s).CloseAgain?
    ensures var s' := AdvanceState(s);
      Wf(s') && PcInRange(s'.pcs[s.current], |s.pcs|) && PcOk(s'.pcs[s.current], s'.tabs[s.current])
  {
    assert EnvOk(s, s.current);
  }

  lemma SelfPcAdvance(s: State)
    requires Inv(s) && Enabled(s, Advance)
    ensures var s' := AdvanceState(s);
      Wf(s') && PcInRange(s'.pcs[s.current], |s.pcs|) && PcOk(s'.pcs[s.current], s'.tabs[s.current])
  {
    var pc, s' := PcNow(s), AdvanceState(s);
    if pc.DupData? || pc.DupFd? || pc.DupErrFd? || pc.DupErrData? {
      SelfPcDup(s);
    } else if pc.CloseFd? || pc.CloseData? || pc.CloseAgain? {
      SelfPcClose(s);
    } else {
      assert EnvOk(s, s.current);
    }
  }

  lemma SelfPc(s: State, t: Step)
    requires Inv(s) && Enabled(s, t)
    ensures var s' := Apply(s, t);
      Wf(s') && PcInRange(s'.pcs[s.current], |s.pcs|) && PcOk(s'.pcs[s.current], s'.tabs[s.current])
  {
    assert EnvOk(s, s.current);
    match t
    case Close(i) => assert SlotOk(PcNow(s), Tab(s), i);
    case Dup(_, i) => assert SlotOk(PcNow(s), Tab(s), i);
    case Advance => SelfPcAdvance(s);
    case _ =>
  }

  // The two loads of _pipeisclosed see one global state unless the environment was rescheduled.
  lemma SelfCheck(s: State, t: Step)
    requires Inv(s) && Enabled(s, t)
    ensures Wf(Apply(s, t)) && CheckOk(Apply(s, t), s.current)
  {
    assert EnvOk(s, s.current);
  }

  lemma ForkProgress(child: Table, parent: Table, done: nat)
    requires done < 2 * MAXFD && ChildOk(child, parent, done)
    ensures ChildOk(ForkCopy(child, parent, done), parent, done + 1)
  {
  }

  lemma SelfFork(s: State, t: Step)
    requires Inv(s) && Enabled(s, t)
    ensures var s' := Apply(s, t);
      Wf(s') && (s'.pcs[s.current].Forking? ==>
        var c := s'.pcs[s.current].child;
        c < |s'.pcs| && s'.pcs[c].Embryo? && ChildOk(s'.tabs[c], s'.tabs[s.current], s'.pcs[s.current].done))
  {
    assert EnvOk(s, s.current);
    if t.Advance? && PcNow(s).Forking? && PcNow(s).done < 2 * MAXFD {
      ForkProgress(s.tabs[PcNow(s).child], Tab(s), PcNow(s).done);
    }
  }

  // A finished child has the parent's slots.
  lemma ChildDone(s: State, i: nat)
    requires Inv(s) && Enabled(s, Advance) && i < MAXFD
    requires PcNow(s).Forking? && PcNow(s).done == 2 * MAXFD
    ensures SlotOk(Idle, s.tabs[PcNow(s).child], i)
  {
    assert EnvOk(s, s.current);
    assert SlotOk(PcNow(s), Tab(s), i);
    assert s.tabs[PcNow(s).child][i] == Tab(s)[i];
  }

  // Whether the step changes an environment other than the current one.
  predicate Reaches(s: State, t: Step, e: nat)
    requires Wf(s) && Enabled(s, t)
  {
    (t.Fork? && t.child == e) || (t.Destroy? && t.target == e)
    || (t.Advance? && PcNow(s).Forking? && PcNow(s).child == e)
  }

  lemma OtherUntouched(s: State, t: Step, e: nat)
    requires Inv(s) && Enabled(s, t) && e != s.current && e < |s.pcs| && !Reaches(s, t, e)
    ensures Wf(Apply(s, t)) && Apply(s, t).pcs[e] == s.pcs[e] && Apply(s, t).tabs[e] == s.tabs[e]
  {
  }

  // A child in the making has its parent's slots as far as they are copied.
  lemma ChildSlots(s: State, i: nat)
    requires Inv(s) && Enabled(s, Advance) && PcNow(s).Forking? && i < MAXFD
    ensures var s' := AdvanceState(s);
      Wf(s') && SlotOk(s'.pcs[PcNow(s).child], s'.tabs[PcNow(s).child], i)
  {
    assert EnvOk(s, s.current);
    var e := PcNow(s).child;
    assert EnvOk(s, e) && SlotOk(s.pcs[e], s.tabs[e], i);
    if PcNow(s).done == 2 * MAXFD {
      ChildDone(s, i);
    } else {
      var j := if PcNow(s).done < MAXFD then i else 2 * MAXFD - 1 - PcNow(s).done;
      assert SlotOk(PcNow(s), Tab(s), j) && SlotOk(PcNow(s), Tab(s), i);
    }
  }

  // The child fork makes runnable has its parent's whole table.
  lemma ForkedAlike(s: State)
    requires Inv(s) && Enabled(s, Advance) && PcNow(s).Forking? && PcNow(s).done == 2 * MAXFD
    ensures AdvanceState(s).pcs[PcNow(s).child] == Idle && AdvanceState(s).tabs[PcNow(s).child] == Tab(s)
  {
    assert EnvOk(s, s.current);
    forall i | 0 <= i < MAXFD ensures s.tabs[PcNow(s).child][i] == Tab(s)[i] {
      ChildDone(s, i);
    }
  }

  lemma OtherSlots(s: State, t: Step, e: nat, i: nat)
    requires Inv(s) && Enabled(s, t) && e != s.current && e < |s.pcs| && i < MAXFD
    ensures Wf(Apply(s, t)) && SlotOk(Apply(s, t).pcs[e], Apply(s, t).tabs[e], i)
  {
    if !Reaches(s, t, e) {
      OtherUntouched(s, t, e);
      assert EnvOk(s, e) && SlotOk(s.pcs[e], s.tabs[e], i);
    } else if t.Advance? {
      ChildSlots(s, i);
    }
  }

  lemma OtherCheck(s: State, t: Step, e: nat)
    requires Inv(s) && Enabled(s, t) && e != s.current && e < |s.pcs|
    ensures Wf(Apply(s, t)) && CheckOk(Apply(s, t), e)
  {
    assert EnvOk(s, e) && EnvOk(s, s.current);
  }

  lemma OtherPc(s: State, t: Step, e: nat)
    requires Inv(s) && Enabled(s, t) && e != s.current && e < |s.pcs|
    ensures var s' := Apply(s, t); Wf(s') && PcInRange(s'.pcs[e], |s'.pcs|) && PcOk(s'.pcs[e], s'.tabs[e])
  {
    assert EnvOk(s, e) && EnvOk(s, s.current);
    if !Reaches(s, t, e) {
      OtherUntouched(s, t, e);
    }
  }

  lemma OtherFork(s: State, t: Step, e: nat)
    requires Inv(s) && Enabled(s, t) && e != s.current && e < |s.pcs|
    ensures var s' := Apply(s, t);
      Wf(s') && (s'.pcs[e].Forking? ==>
        var c := s'.pcs[e].child;
        c < |s'.pcs| && s'.pcs[c].Embryo? && ChildOk(s'.tabs[c], s'.tabs[e], s'.pcs[e].done))
  {
    assert EnvOk(s, e) && EnvOk(s, s.current);
    if !Reaches(s, t, e) {
      OtherUntouched(s, t, e);
      if s.pcs[e].Forking? && s.pcs[e].child != s.current && !Reaches(s, t, s.pcs[e].child) {
        OtherUntouched(s, t, s.pcs[e].child);
      }
    }
  }

  lemma OtherStep(s: State, t: Step, e: nat)
    requires Inv(s) && Enabled(s, t) && e != s.current && e < |s.pcs|
    ensures Wf(Apply(s, t)) && EnvOk(Apply(s, t), e)
  {
    OtherPc(s, t, e);
    OtherCheck(s, t, e);
    OtherFork(s, t, e);
    forall i | 0 <= i < MAXFD
      ensures SlotOk(Apply(s, t).pcs[e], Apply(s, t).tabs[e], i)
    {
      OtherSlots(s, t, e, i);
    }
  }

  // Nobody gets a child but by its own fork, of a dead environment.
  lemma ChildKept(s: State, t: Step, e: nat)
    requires Inv(s) && Enabled(s, t) && e < |s.pcs|
    requires Wf(Apply(s, t)) && Apply(s, t).pcs[e].Forking?
    ensures |Apply(s, t).pcs| == |s.pcs|
    ensures if t.Fork? && e == s.current then Apply(s, t).pcs[e].child == t.child && s.pcs[t.child].Dead?
            else s.pcs[e].Forking? && s.pcs[e].child == Apply(s, t).pcs[e].child
  {
    assert EnvOk(s, e) && EnvOk(s, s.current);
    if e != s.current && !Reaches(s, t, e) {
      OtherUntouched(s, t, e);
    }
  }

  lemma ChildrenStep(s: State, t: Step, e: nat, d: nat)
    requires Inv(s) && Enabled(s, t)
    requires e < |s.pcs| && d < |s.pcs| && e != d
    requires Wf(Apply(s, t)) && Apply(s, t).pcs[e].Forking? && Apply(s, t).pcs[d].Forking?
    ensures Apply(s, t).pcs[e].child != Apply(s, t).pcs[d].child
  {
    hide Apply, Enabled, SlotOk, PcOk, CheckOk, ChildOk;
    ChildKept(s, t, e);
    ChildKept(s, t, d);
    assert EnvOk(s, e) && EnvOk(s, d);
  }

  lemma InvStep(s: State, t: Step)
    requires Inv(s) && Enabled(s, t)
    ensures Inv(Apply(s, t))
  {
    var s' := Apply(s, t);
    forall e | 0 <= e < |s'.pcs|
      ensures Wf(s') && EnvOk(s', e)
    {
      if e == s.current {
        SelfPc(s, t);
        SelfCheck(s, t);
        SelfFork(s, t);
        forall i | 0 <= i < MAXFD
          ensures SlotOk(s'.pcs[e], s'.tabs[e], i)
        {
          SelfSlots(s, t, i);
        }
      } else {
        OtherStep(s, t, e);
      }
    }
    forall e, d | 0 <= e < |s'.pcs| && 0 <= d < |s'.pcs| && e != d && s'.pcs[e].Forking? && s'.pcs[d].Forking?
      ensures s'.pcs[e].child != s'.pcs[d].child
    {
      ChildrenStep(s, t, e, d);
    }
  }

  // ------------------------------------------------------------------
  // Counting
  // ------------------------------------------------------------------

  predicate AllPaired(t: seq<Slot>) {
    forall i :: 0 <= i < |t| ==> Paired(t[i])
  }

  // Pipe page and pipe descriptor mapped together or not at all.
  predicate AllMatched(t: seq<Slot>) {
    forall i :: 0 <= i < |t| ==> (IsPipeFd(t[i].fd) <==> t[i].data == PipePage)
  }

  lemma {:induction false} TableCount(t: seq<Slot>)
    ensures AllPaired(t) ==> InTable(t, KPipe) >= InTable(t, KRead) + InTable(t, KWrite)
    ensures AllMatched(t) ==> InTable(t, KPipe) == InTable(t, KRead) + InTable(t, KWrite)
  {
    if t != [] {
      assert AllPaired(t) ==> AllPaired(t[1..]) && Paired(t[0]);
      assert AllMatched(t) ==> AllMatched(t[1..]);
      TableCount(t[1..]);
    }
  }

  lemma {:induction false} RefsCount(tabs: seq<Table>)
    requires forall e :: 0 <= e < |tabs| ==> AllPaired(tabs[e])
    ensures Refs(tabs, KPipe) >= Refs(tabs, KRead) + Refs(tabs, KWrite)
    ensures (forall e :: 0 <= e < |tabs| ==> AllMatched(tabs[e])) ==>
      Refs(tabs, KPipe) == Refs(tabs, KRead) + Refs(tabs, KWrite)
  {
    if tabs != [] {
      TableCount(tabs[0]);
      RefsCount(tabs[1..]);
    }
  }

  // No environment maps the page.
  ghost predicate Unmapped(tabs: seq<Table>, k: Kind) {
    forall e, i :: 0 <= e < |tabs| && 0 <= i < MAXFD ==> !Names(tabs[e][i], k)
  }

  lemma {:induction false} TableZero(t: seq<Slot>, k: Kind)
    ensures InTable(t, k) == 0 <==> forall i :: 0 <= i < |t| ==> !Names(t[i], k)
  {
    if t != [] {
      TableZero(t[1..], k);
      assert forall i :: 1 <= i < |t| ==> t[i] == t[1..][i - 1];
      assert (forall i :: 0 <= i < |t| ==> !Names(t[i], k)) ==> !Names(t[0], k) && forall i :: 0 <= i < |t| - 1 ==> !Names(t[1..][i], k);
    }
  }

  lemma {:induction false} RefsZero(tabs: seq<Table>, k: Kind)
    ensures Refs(tabs, k) == 0 <==> Unmapped(tabs, k)
  {
    if tabs != [] {
      TableZero(tabs[0], k);
      RefsZero(tabs[1..], k);
      assert forall e :: 1 <= e < |tabs| ==> tabs[e] == tabs[1..][e - 1];
      assert Unmapped(tabs, k) ==> Unmapped(tabs[1..], k);
    }
  }

  // ------------------------------------------------------------------
  // Whole runs
  // ------------------------------------------------------------------

  predicate IsRun(s: State, ts: seq<Step>)
    decreases |ts|
  {
    ts == [] || (Wf(s) && Enabled(s, ts[0]) && IsRun(Apply(s, ts[0]), ts[1..]))
  }

  function Exec(s: State, ts: seq<Step>): State
    requires IsRun(s, ts)
    decreases |ts|
  {
    if ts == [] then s else Exec(Apply(s, ts[0]), ts[1..])
  }

  lemma {:induction false} RunConcat(s: State, a: seq<Step>, b: seq<Step>)
    requires IsRun(s, a) && IsRun(Exec(s, a), b)
    ensures IsRun(s, a + b) && Exec(s, a + b) == Exec(Exec(s, a), b)
    decreases |a|
  {
    if a == [] {
      assert a + b == b;
    } else {
      RunConcat(Apply(s, a[0]), a[1..], b);
      assert (a + b)[0] == a[0] && (a + b)[1..] == a[1..] + b;
    }
  }

  // The state pipe() returns in: environment e holds the read end in slot r and the write end in
  // slot w, nobody else maps the new pages, nobody is in the middle of a call.
  predicate AfterPipe(s: State, e: nat, r: nat, w: nat) {
    && Wf(s) && e < |s.pcs| && r < MAXFD && w < MAXFD && r != w
    && (forall d :: 0 <= d < |s.pcs| ==> s.pcs[d] == Idle || (s.pcs[d] == Dead && s.tabs[d] == EmptyTable()))
    && s.tabs[e][r] == Slot(ReadFd, PipePage) && s.tabs[e][w] == Slot(WriteFd, PipePage)
    && (forall d, i :: 0 <= d < |s.pcs| && 0 <= i < MAXFD && !(d == e && (i == r || i == w)) ==>
          !IsPipeFd(s.tabs[d][i].fd) && s.tabs[d][i].data != PipePage)
  }

  lemma AfterPipeInv(s: State, e: nat, r: nat, w: nat)
    requires AfterPipe(s, e, r, w)
    ensures Inv(s)
  {
    forall d | 0 <= d < |s.pcs|
      ensures EnvOk(s, d)
    {
    }
  }

  lemma {:induction false} RunInv(s: State, ts: seq<Step>)
    requires Inv(s) && IsRun(s, ts)
    ensures Inv(Exec(s, ts))
    decreases |ts|
  {
    if ts != [] {
      InvStep(s, ts[0]);
      RunInv(Apply(s, ts[0]), ts[1..]);
    }
  }

  // In every state of every run the pipe page has at least as many mappings as the two
  // descriptor pages together.
  lemma PipeRefsCoverFds(s: State, ts: seq<Step>, e: nat, r: nat, w: nat)
    requires AfterPipe(s, e, r, w) && IsRun(s, ts)
    ensures var tabs := Exec(s, ts).tabs; Refs(tabs, KPipe) >= Refs(tabs, KRead) + Refs(tabs, KWrite)
  {
    AfterPipeInv(s, e, r, w);
    RunInv(s, ts);
    CoverFds(Exec(s, ts));
  }

  predicate SettledPc(pc: Pc) {
    !pc.Embryo? && !pc.CloseData? && !pc.DupFd? && !pc.DupErrFd? && !pc.DupErrData?
  }

  // Nobody is between the two halves of a close or a dup, and no child is half made.
  predicate Settled(s: State) {
    forall e :: 0 <= e < |s.pcs| ==> SettledPc(s.pcs[e])
  }

  lemma SlotsPaired(s: State, d: nat)
    requires Inv(s) && d < |s.tabs|
    ensures AllPaired(s.tabs[d])
    ensures Settled(s) ==> AllMatched(s.tabs[d])
  {
    assert EnvOk(s, d);
    forall i | 0 <= i < MAXFD
      ensures Paired(s.tabs[d][i])
      ensures Settled(s) ==> (IsPipeFd(s.tabs[d][i].fd) <==> s.tabs[d][i].data == PipePage)
    {
      assert SlotOk(s.pcs[d], s.tabs[d], i);
      assert Settled(s) ==> SettledPc(s.pcs[d]);
    }
  }

  lemma CoverFds(s: State)
    requires Inv(s)
    ensures Refs(s.tabs, KPipe) >= Refs(s.tabs, KRead) + Refs(s.tabs, KWrite)
  {
    forall d | 0 <= d < |s.tabs|
      ensures AllPaired(s.tabs[d])
    {
      SlotsPaired(s, d);
    }
    RefsCount(s.tabs);
  }

  lemma AnswerMeansUnmapped(s: State)
    requires Inv(s) && Returning(s) && Answer(s)
    ensures Refs(s.tabs, OtherEnd(KindOf(Tab(s)[PcNow(s).i].fd))) == 0
  {
    assert EnvOk(s, s.current);
    CoverFds(s);
  }

  // When _pipeisclosed returns true, no environment maps the other end at that instant, and none
  // ever maps it again.
  lemma ClosedIsNeverFalse(s: State, ts: seq<Step>, e: nat, r: nat, w: nat, later: seq<Step>)
    requires AfterPipe(s, e, r, w) && IsRun(s, ts)
    requires Wf(Exec(s, ts)) && Returning(Exec(s, ts)) && Answer(Exec(s, ts))
    requires IsRun(Exec(s, ts), later)
    ensures var s' := Exec(s, ts);
      var other := OtherEnd(KindOf(Tab(s')[PcNow(s').i].fd));
      Refs(s'.tabs, other) == 0 && Refs(Exec(s', later).tabs, other) == 0
  {
    AfterPipeInv(s, e, r, w);
    RunInv(s, ts);
    var s' := Exec(s, ts);
    AnswerMeansUnmapped(s');
    var other := OtherEnd(KindOf(Tab(s')[PcNow(s').i].fd));
    StaysUnmapped(s', later, other);
  }

  lemma UnmappedStep(s: State, t: Step, k: Kind)
    requires Inv(s) && Enabled(s, t) && !k.KPipe? && Unmapped(s.tabs, k)
    ensures Unmapped(Apply(s, t).tabs, k)
  {
    assert EnvOk(s, s.current);
  }

  lemma {:induction false} StaysUnmapped(s: State, ts: seq<Step>, k: Kind)
    requires Inv(s) && IsRun(s, ts) && !k.KPipe? && Refs(s.tabs, k) == 0
    ensures Refs(Exec(s, ts).tabs, k) == 0
    decreases |ts|
  {
    if ts != [] {
      InvStep(s, ts[0]);
      RefsZero(s.tabs, k);
      UnmappedStep(s, ts[0], k);
      RefsZero(Apply(s, ts[0]).tabs, k);
      StaysUnmapped(Apply(s, ts[0]), ts[1..], k);
    }
  }

  // In a settled state _pipeisclosed is exact.
  lemma ExactWhenSettled(s: State, ts: seq<Step>, e: nat, r: nat, w: nat)
    requires AfterPipe(s, e, r, w) && IsRun(s, ts)
    requires Wf(Exec(s, ts)) && Returning(Exec(s, ts)) && Settled(Exec(s, ts))
    ensures var s' := Exec(s, ts);
      Answer(s') <==> Refs(s'.tabs, OtherEnd(KindOf(Tab(s')[PcNow(s').i].fd))) == 0
  {
    AfterPipeInv(s, e, r, w);
    RunInv(s, ts);
    var s' := Exec(s, ts);
    assert EnvOk(s', s'.current);
    forall d | 0 <= d < |s'.tabs|
      ensures AllPaired(s'.tabs[d]) && AllMatched(s'.tabs[d])
    {
      SlotsPaired(s', d);
    }
    RefsCount(s'.tabs);
  }

  // ------------------------------------------------------------------
  // The code of lib/fd.c and devpipe_close, run without interruption
  // ------------------------------------------------------------------

  function Closed(t: Table, i: nat): Table
    requires i < MAXFD
  {
    if t[i].fd == NoFd then t
    else if IsPipeFd(t[i].fd) then t[i := Slot(NoFd, NoData)]
    else UnmapFd(t, i)
  }

  function Duplicated(t: Table, src: nat, dst: nat): Table
    requires src < MAXFD && dst < MAXFD
  {
    if t[src].fd == NoFd then t
    else if src == dst then t[src := Slot(NoFd, NoData)]
    else
      var data := if t[src].data == NoData then Closed(t, dst)[dst].data else t[src].data;
      t[dst := Slot(t[src].fd, data)]
  }

  ghost predicate PairedFrom(seen: seq<Table>, n: nat) {
    forall k :: n <= k < |seen| ==> AllPaired(seen[k])
  }

  class Descriptors {
    var tab: Table
    ghost var seen: seq<Table>   // the table after every system call

    method UnmapFdPage(i: nat)
      requires i < MAXFD
      modifies this
      ensures tab == UnmapFd(old(tab), i) && seen == old(seen) + [tab]
    {
      tab := tab[i := tab[i].(fd := NoFd)];
      seen := seen + [tab];
    }

    method UnmapDataPage(i: nat)
      requires i < MAXFD
      modifies this
      ensures tab == UnmapData(old(tab), i) && seen == old(seen) + [tab]
    {
      tab := tab[i := tab[i].(data := NoData)];
      seen := seen + [tab];
    }

    method DevpipeClose(i: nat)
      requires i < MAXFD && AllPaired(tab)
      modifies this
      ensures tab == old(tab)[i := Slot(NoFd, NoData)]
      ensures old(seen) <= seen && PairedFrom(seen, |old(seen)|)
    {
      UnmapFdPage(i);
      UnmapDataPage(i);
    }

    method Close(i: nat)
      requires i < MAXFD && AllPaired(tab)
      modifies this
      ensures tab == Closed(old(tab), i)
      ensures tab[i].fd == NoFd && (IsPipeFd(old(tab)[i].fd) ==> tab[i].data == NoData)
      ensures !IsPipeFd(old(tab)[i].fd) ==> tab[i].data == old(tab)[i].data
      ensures forall j :: 0 <= j < MAXFD && j != i ==> tab[j] == old(tab)[j]
      ensures old(seen) <= seen && PairedFrom(seen, |old(seen)|)
    {
      if tab[i].fd == NoFd {
        return;
      }
      if IsPipeFd(tab[i].fd) {
        DevpipeClose(i);
      }
      UnmapFdPage(i);
      assert tab == Closed(old(tab), i);
    }

    // At every instant of dup, and of the close inside it, each mapped pipe descriptor has its pipe page.
    method Dup(src: nat, dst: nat) returns (ok: bool)
      requires src < MAXFD && dst < MAXFD && AllPaired(tab)
      modifies this
      ensures ok <==> old(tab)[src].fd != NoFd && src != dst
      ensures ok ==> tab[dst].fd == old(tab)[src].fd
      ensures ok && old(tab)[src].data != NoData ==> tab[dst].data == old(tab)[src].data
      ensures ok && IsPipeFd(old(tab)[src].fd) ==> tab[dst] == old(tab)[src]
      ensures forall j :: 0 <= j < MAXFD && j != dst ==> tab[j] == old(tab)[j]
      ensures tab == Duplicated(old(tab), src, dst) && AllPaired(tab)
      ensures old(seen) <= seen && PairedFrom(seen, |old(seen)|)
    {
      if tab[src].fd == NoFd {
        return false;
      }
      Close(dst);
      if tab[src].data != NoData {
        tab := tab[dst := tab[dst].(data := tab[src].data)];
        seen := seen + [tab];
      }
      if tab[src].fd == NoFd {
        UnmapFdPage(dst);
        UnmapDataPage(dst);
        return false;
      }
      tab := tab[dst := tab[dst].(fd := tab[src].fd)];
      seen := seen + [tab];
      return true;
    }
  }
}
