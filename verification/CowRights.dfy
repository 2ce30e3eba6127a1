// Who may store where: the permission bits fork leaves behind (lib/fork.c), and the other half of the
// agreement with the eager machine, that every store it allows can be made.
module CowRights {
  import opened CowFork

  // The locations a program may store to in the eager machine: a copy or an alias is as writable as its
  // source was at that instant; the fault handler makes its page writable.
  function RightsStep(r: set<Loc>, s: State, t: Step): set<Loc>
    requires Enabled(s, t)
  {
    match EventOf(s, t)
    case CopyPage(src, dst) => if src in r then r + {dst} else r
    case SharePage(src, dst) => if src in r then r + {dst} else r
    case _ => if t.FaultMove? then r + {Loc(t.e, s.fault[t.e].p)} else r
  }

  function RightsAfter(r: set<Loc>, s: State, ts: seq<Step>): set<Loc>
    requires IsRun(s, ts)
    decreases |ts|
  {
    if ts == [] then r else RightsAfter(RightsStep(r, s, ts[0]), Apply(s, ts[0]), ts[1..])
  }

  // The copy-on-write machine's bits say the same of every location both machines know.
  ghost predicate RightsOk(s: State, r: set<Loc>) {
    forall l :: l in r <==> Visible(s, l) && (s.pt[l].w || s.pt[l].cow)
  }

  lemma RightsQuiet(s: State, r: set<Loc>, t: Step)
    requires Inv(s) && Enabled(s, t) && RightsOk(s, r) && (Quiet(t) || t.Write? || t.FaultCopy?)
    ensures RightsOk(Apply(s, t), RightsStep(r, s, t))
  {
    forall l ensures Visible(Apply(s, t), l) <==> Visible(s, l) {
      PendingKept(s, t, l);
    }
    hide Pending, Inv;
  }

  lemma RightsHandler(s: State, r: set<Loc>, t: Step)
    requires Inv(s) && Enabled(s, t) && RightsOk(s, r) && (t.FaultAlloc? || t.FaultMove? || t.FaultDone?)
    ensures RightsOk(Apply(s, t), RightsStep(r, s, t))
  {
    assert FaultOk(s, t.e);
    if t.FaultMove? {
      RunningVisible(s, t.e, s.fault[t.e].p);
    }
    forall l ensures Visible(Apply(s, t), l) <==> Visible(s, l) {
      HandlerVisible(s, t, l);
    }
    hide Pending, Inv;
  }

  lemma RightsMapChild(s: State, r: set<Loc>, t: Step)
    requires Inv(s) && Enabled(s, t) && RightsOk(s, r) && t.DupMapChild?
    ensures RightsOk(Apply(s, t), RightsStep(r, s, t))
  {
    assert ForkOk(s, t.e);
    RunningVisible(s, t.e, s.fork[t.e].win.p);
    forall l
      ensures Pending(Apply(s, t), l) <==>
        (Pending(s, l) || (l == Loc(s.fork[t.e].child, s.fork[t.e].win.p) && EventOf(s, t) == Tau))
    {
      PendingMapChild(s, t, l);
    }
    assert !Pending(s, Loc(s.fork[t.e].child, s.fork[t.e].win.p)) by {
      NewChildPage(s, t.e);
    }
    hide Pending, Inv;
  }

  // A page duppage is about to map into the child is not pending.
  lemma NewChildPage(s: State, e: nat)
    requires Inv(s) && InWindow(s, e) && s.fork[e].win.PermRead?
    ensures !Pending(s, Loc(s.fork[e].child, s.fork[e].win.p))
  {
    assert forall d :: d in s.fork ==> ForkOk(s, d);
  }

  // What the second sys_page_map of duppage changes.
  lemma MapSelfBits(s: State, e: nat)
    requires Inv(s) && Enabled(s, DupMapSelf(e))
    ensures var src, dst := Loc(e, s.fork[e].win.p), Loc(s.fork[e].child, s.fork[e].win.p);
      && src != dst && src in s.pt && dst in s.pt && dst.vpn != PFTEMP && (s.pt[src].w || s.pt[src].cow)
      && (!s.fork[e].win.copied ==> s.pt[dst].cow && Pending(s, dst))
      && (s.fork[e].win.copied ==> !Pending(s, dst))
      && var pt' := Apply(s, DupMapSelf(e)).pt;
        pt'.Keys == s.pt.Keys && pt'[src].cow && forall l :: l in s.pt && l != src ==> pt'[l] == s.pt[l]
  {
    var dst := Loc(s.fork[e].child, s.fork[e].win.p);
    assert ForkOk(s, e);
    assert !s.fork[e].win.copied ==> Undecided(s, e, dst.env, dst.vpn);
    if s.fork[e].win.copied {
      CopiedChildPage(s, e);
    }
  }

  lemma MapSelfRights(r: set<Loc>, s: State, e: nat)
    requires Enabled(s, DupMapSelf(e))
    ensures var src, dst := Loc(e, s.fork[e].win.p), Loc(s.fork[e].child, s.fork[e].win.p);
      RightsStep(r, s, DupMapSelf(e)) == if !s.fork[e].win.copied && src in r then r + {dst} else r
  {
  }

  lemma MapSelfExtends(s: State, s': State, r: set<Loc>, src: Loc, dst: Loc, copied: bool)
    requires RightsOk(s, r) && src != dst && src in s.pt && dst in s.pt && dst.vpn != PFTEMP && Visible(s, src)
    requires s.pt[src].w || s.pt[src].cow
    requires !copied ==> s.pt[dst].cow && Pending(s, dst)
    requires copied ==> !Pending(s, dst)
    requires s'.pt.Keys == s.pt.Keys && s'.pt[src].cow && forall l :: l in s.pt && l != src ==> s'.pt[l] == s.pt[l]
    requires forall l :: Pending(s', l) <==> Pending(s, l) && l != dst
    ensures RightsOk(s', if !copied && src in r then r + {dst} else r)
  {
    hide Pending;
  }

  lemma RightsMapSelf(s: State, r: set<Loc>, t: Step)
    requires Inv(s) && Enabled(s, t) && RightsOk(s, r) && t.DupMapSelf?
    ensures RightsOk(Apply(s, t), RightsStep(r, s, t))
  {
    var e := t.e;
    var src, dst := Loc(e, s.fork[e].win.p), Loc(s.fork[e].child, s.fork[e].win.p);
    hide Apply, Pending, Inv, RightsOk, RightsStep, Visible;
    RunningVisible(s, e, s.fork[e].win.p);
    MapSelfBits(s, e);
    forall l ensures Pending(Apply(s, t), l) <==> Pending(s, l) && l != dst {
      PendingMapSelf(s, t, l);
    }
    MapSelfRights(r, s, e);
    MapSelfExtends(s, Apply(s, t), r, src, dst, s.fork[e].win.copied);
  }

  lemma CopiedChildPage(s: State, e: nat)
    requires Inv(s) && InWindow(s, e) && s.fork[e].win.ChildMapped? && s.fork[e].win.copied
    ensures !Pending(s, Loc(s.fork[e].child, s.fork[e].win.p))
  {
    var c, p := s.fork[e].child, s.fork[e].win.p;
    forall d ensures !Undecided(s, d, c, p) {
      assert d in s.fork && d != e && s.fork[d].Forking? ==> s.fork[d].child != c;
    }
  }

  lemma RightsKept(s: State, r: set<Loc>, t: Step)
    requires Inv(s) && Enabled(s, t) && RightsOk(s, r)
    ensures RightsOk(Apply(s, t), RightsStep(r, s, t))
  {
    match t
    case DupMapChild(_) => RightsMapChild(s, r, t);
    case DupMapSelf(_) => RightsMapSelf(s, r, t);
    case FaultAlloc(_, _, _) => RightsHandler(s, r, t);
    case FaultMove(_) => RightsHandler(s, r, t);
    case FaultDone(_) => RightsHandler(s, r, t);
    case _ => RightsQuiet(s, r, t);
  }

  lemma {:induction false} RightsRun(s: State, r: set<Loc>, ts: seq<Step>)
    requires Inv(s) && RightsOk(s, r) && IsRun(s, ts)
    ensures Inv(Exec(s, ts)) && RightsOk(Exec(s, ts), RightsAfter(r, s, ts))
    decreases |ts|
  {
    hide Inv, RightsOk, Apply, Enabled, RightsStep;
    if ts != [] {
      InvStep(s, ts[0]);
      RightsKept(s, r, ts[0]);
      RightsRun(Apply(s, ts[0]), RightsStep(r, s, ts[0]), ts[1..]);
    }
  }

  // Before any fork: what the page table lets the program write, or its fault handler make writable.
  function FirstRights(s: State): set<Loc> {
    set l | l in s.pt && (s.pt[l].w || s.pt[l].cow)
  }

  lemma FirstRightsOk(s: State)
    requires Init(s)
    ensures Inv(s) && RightsOk(s, FirstRights(s))
  {
    InitAgrees(s);
    assert forall l :: !Pending(s, l);
  }

  // The store can be made now, or after one run of the fault handler, whatever frame it gets.
  ghost predicate CanStore(s: State, e: nat, p: nat, off: nat, b: nat) {
    || Enabled(s, Write(e, p, off, b))
    || (&& Enabled(s, FaultEnter(e, p))
        && forall f: nat, stale: Page :: FreeFrame(s, f) ==>
             IsRun(TakeFault(s, e, p), HandlerSteps(e, f, stale))
             && Enabled(Exec(TakeFault(s, e, p), HandlerSteps(e, f, stale)), Write(e, p, off, b)))
  }

  lemma HandledThenStored(s: State, e: nat, p: nat, off: nat, b: nat, f: nat, stale: Page)
    requires Inv(s) && Enabled(s, FaultEnter(e, p)) && FreeFrame(s, f) && off < PGSIZE
    ensures IsRun(TakeFault(s, e, p), HandlerSteps(e, f, stale))
    ensures Enabled(Exec(TakeFault(s, e, p), HandlerSteps(e, f, stale)), Write(e, p, off, b))
  {
    assert PteOk(s, Loc(e, p));
    hide HandlerSteps, IsRun, Exec, Inv;
    HandlerRun(TakeFault(s, e, p), e, p, f, stale);
  }

  lemma CanStoreCow(s: State, e: nat, p: nat, off: nat, b: nat)
    requires Inv(s) && Plain(s, e) && p != PFTEMP && off < PGSIZE && Loc(e, p) in s.pt
    requires s.pt[Loc(e, p)].w || s.pt[Loc(e, p)].cow
    ensures CanStore(s, e, p, off, b)
  {
    assert PteOk(s, Loc(e, p));
    if !s.pt[Loc(e, p)].w {
      forall f: nat, stale: Page | FreeFrame(s, f)
        ensures IsRun(TakeFault(s, e, p), HandlerSteps(e, f, stale))
          && Enabled(Exec(TakeFault(s, e, p), HandlerSteps(e, f, stale)), Write(e, p, off, b))
      {
        HandledThenStored(s, e, p, off, b, f, stale);
      }
    }
  }

  // The two machines allow the same stores.  After any run from a quiet state an environment that executes
  // ordinary code can store to a page, at most after one run of its fault handler, whenever the eager
  // machine says it may: the page was writable before every fork it came through.  A store it can make at
  // once is always one of these.
  lemma StoresAgree(s: State, ts: seq<Step>, e: nat, p: nat, off: nat, b: nat)
    requires Init(s) && IsRun(s, ts) && Plain(Exec(s, ts), e) && p != PFTEMP && off < PGSIZE
    ensures Loc(e, p) in RightsAfter(FirstRights(s), s, ts) ==> CanStore(Exec(s, ts), e, p, off, b)
    ensures Enabled(Exec(s, ts), Write(e, p, off, b)) ==> Loc(e, p) in RightsAfter(FirstRights(s), s, ts)
  {
    FirstRightsOk(s);
    RightsRun(s, FirstRights(s), ts);
    var s' := Exec(s, ts);
    if Loc(e, p) in RightsAfter(FirstRights(s), s, ts) {
      CanStoreCow(s', e, p, off, b);
    }
    if Enabled(s', Write(e, p, off, b)) {
      RunningVisible(s', e, p);
    }
  }

  // ------------------------------------------------------------------
  // The bits duppage leaves
  // ------------------------------------------------------------------

  // The child's bits for a page the parent held with the bits was.
  predicate ChildBits(pte: Pte, was: Pte) {
    && pte.share == was.share
    && pte.w == (was.share && was.w)
    && pte.cow == (if was.share then was.cow else was.w || was.cow)
  }

  // Parent and child share a PTE_SHARE page under one and the same entry.
  predicate SharedAlike(s: State, e: nat, c: nat, p: nat, was: Pte) {
    Loc(e, p) in s.pt && s.pt[Loc(e, p)] == was && Loc(c, p) in s.pt && s.pt[Loc(c, p)] == was
  }

  ghost predicate WindowBits(s: State, e: nat, c: nat, p: nat, was: Pte) {
    && WindowOn(s, e, c, p)
    && match s.fork[e].win
       case PermRead(_, perm) => perm == was && (was.share ==> Loc(e, p) in s.pt && s.pt[Loc(e, p)] == was)
       case ChildMapped(_, perm, _) =>
         perm == was && Loc(c, p) in s.pt && ChildBits(s.pt[Loc(c, p)], was) && (was.share ==> SharedAlike(s, e, c, p, was))
       case SelfMapped(_) =>
         Loc(c, p) in s.pt && ChildBits(s.pt[Loc(c, p)], was) && (was.share ==> SharedAlike(s, e, c, p, was))
       case _ => true
  }

  lemma WindowBitsOther(s: State, t: Step, e: nat, c: nat, p: nat, was: Pte)
    requires Inv(s) && Enabled(s, t) && WindowBits(s, e, c, p, was) && t.e != e
    ensures WindowBits(Apply(s, t), e, c, p, was)
  {
    UntouchedEnv(s, t, e);
    UntouchedChild(s, t, e);
    hide Apply, Enabled, Inv, Touches;
    UntouchedMappings(s, t, e);
    UntouchedMappings(s, t, c);
  }

  lemma WindowBitsSelf(s: State, t: Step, e: nat, c: nat, p: nat, was: Pte)
    requires Inv(s) && Enabled(s, t) && WindowBits(s, e, c, p, was) && t.e == e && t != DupEnd(e)
    ensures WindowBits(Apply(s, t), e, c, p, was)
  {
    assert ForkOk(s, e) && FaultOk(s, e);
    hide Exclusive, ShareApart, Ptes, Forks, Faults;
  }

  lemma {:induction false} WindowBitsRun(s: State, ts: seq<Step>, e: nat, c: nat, p: nat, was: Pte)
    requires Inv(s) && IsRun(s, ts) && WindowBits(s, e, c, p, was) && DupEnd(e) !in ts
    ensures WindowBits(Exec(s, ts), e, c, p, was)
    decreases |ts|
  {
    hide Inv, Enabled, Apply, WindowBits;
    if ts != [] {
      InvStep(s, ts[0]);
      if ts[0].e == e {
        WindowBitsSelf(s, ts[0], e, c, p, was);
      } else {
        WindowBitsOther(s, ts[0], e, c, p, was);
      }
      WindowBitsRun(Apply(s, ts[0]), ts[1..], e, c, p, was);
    }
  }

  // When duppage returns, whatever happened meanwhile: a shared page is mapped in the child exactly as in
  // the parent, PTE_W included; a private page that was writable or copy-on-write is copy-on-write and not
  // writable in the child; a read-only one is read-only there.
  lemma DuppageBits(s: State, e: nat, p: nat, ts: seq<Step>)
    requires Inv(s) && Enabled(s, DupStart(e, p))
    requires IsRun(Apply(s, DupStart(e, p)), ts) && DupEnd(e) !in ts
    requires Enabled(Exec(Apply(s, DupStart(e, p)), ts), DupEnd(e))
    ensures var s', was, child := Exec(Apply(s, DupStart(e, p)), ts), s.pt[Loc(e, p)], Loc(s.fork[e].child, p);
      && child in s'.pt
      && (was.share ==> s'.pt[child] == was && Loc(e, p) in s'.pt && s'.pt[Loc(e, p)] == was)
      && (!was.share && (was.w || was.cow) ==> !s'.pt[child].w && s'.pt[child].cow && !s'.pt[child].share)
      && (!was.share && !was.w && !was.cow ==> !s'.pt[child].w && !s'.pt[child].cow && !s'.pt[child].share)
  {
    InvStep(s, DupStart(e, p));
    WindowBitsRun(Apply(s, DupStart(e, p)), ts, e, s.fork[e].child, p, s.pt[Loc(e, p)]);
  }

  // The system calls of an uninterrupted duppage, from its call to its return.
  function DuppageSteps(e: nat, p: nat, was: Pte): seq<Step> {
    if !was.share && (was.w || was.cow) then [DupStart(e, p), DupMapChild(e), DupMapSelf(e), DupEnd(e)]
    else [DupStart(e, p), DupMapChild(e), DupEnd(e)]
  }

  function Duplicated(s: State, e: nat, p: nat): State
    requires Loc(e, p) in s.pt && e in s.fork && s.fork[e].Forking?
  {
    var was, c := s.pt[Loc(e, p)], s.fork[e].child;
    var pte := if was.share || (!was.w && !was.cow) then was else Pte(was.frame, false, true, false);
    s.(pt := s.pt[Loc(c, p) := pte][Loc(e, p) := pte],
       fork := s.fork[e := Forking(c, s.fork[e].done + {p}, Between)])
  }

  // After its first sys_page_map.
  function HalfDuplicated(s: State, e: nat, p: nat): State
    requires Loc(e, p) in s.pt && e in s.fork && s.fork[e].Forking?
  {
    var was, c := s.pt[Loc(e, p)], s.fork[e].child;
    var pte := if was.share || (!was.w && !was.cow) then was else Pte(was.frame, false, true, false);
    s.(pt := s.pt[Loc(c, p) := pte],
       fork := s.fork[e := Forking(c, s.fork[e].done + {p}, ChildMapped(p, was, !(Needs2(was) && was.w)))])
  }

  lemma DuppageHead(s: State, e: nat, p: nat)
    requires Enabled(s, DupStart(e, p))
    ensures IsRun(s, [DupStart(e, p), DupMapChild(e)])
    ensures Exec(s, [DupStart(e, p), DupMapChild(e)]) == HalfDuplicated(s, e, p)
  {
    var s1 := Apply(s, DupStart(e, p));
    assert s1.pt == s.pt;
    Exec2(s, DupStart(e, p), DupMapChild(e));
    assert Apply(s1, DupMapChild(e)).fork == HalfDuplicated(s, e, p).fork;
    assert s.pt[Loc(e, p)].(frame := s.pt[Loc(e, p)].frame) == s.pt[Loc(e, p)];
  }

  lemma DuppageTail(s: State, e: nat, p: nat)
    requires Enabled(s, DupStart(e, p)) && s.fork[e].child != e
    ensures var was, s2 := s.pt[Loc(e, p)], HalfDuplicated(s, e, p);
      if !was.share && (was.w || was.cow) then
        Enabled(s2, DupMapSelf(e)) && Enabled(Apply(s2, DupMapSelf(e)), DupEnd(e))
        && Apply(Apply(s2, DupMapSelf(e)), DupEnd(e)) == Duplicated(s, e, p)
      else Enabled(s2, DupEnd(e)) && Apply(s2, DupEnd(e)) == Duplicated(s, e, p)
  {
    var was, s2 := s.pt[Loc(e, p)], HalfDuplicated(s, e, p);
    assert s2.fork[e := s2.fork[e].(win := Between)] == Duplicated(s, e, p).fork;
    assert was.share || (!was.w && !was.cow) ==> s2.pt == Duplicated(s, e, p).pt;
    if !was.share && (was.w || was.cow) {
      var s3 := Apply(s2, DupMapSelf(e));
      assert s3.fork[e := s3.fork[e].(win := Between)] == Duplicated(s, e, p).fork;
    }
  }

  // UserMemory.Duppage computes what the machine's steps compute.
  lemma DuppageIsRun(s: State, e: nat, p: nat)
    requires Inv(s) && Enabled(s, DupStart(e, p))
    ensures IsRun(s, DuppageSteps(e, p, s.pt[Loc(e, p)]))
    ensures Exec(s, DuppageSteps(e, p, s.pt[Loc(e, p)])) == Duplicated(s, e, p)
  {
    assert ForkOk(s, e);
    hide Inv, ForkOk, Apply, HalfDuplicated, Duplicated;
    DuppageHead(s, e, p);
    DuppageTail(s, e, p);
    var was, s2 := s.pt[Loc(e, p)], HalfDuplicated(s, e, p);
    if !was.share && (was.w || was.cow) {
      Exec2(s2, DupMapSelf(e), DupEnd(e));
      ExecAppend(s, [DupStart(e, p), DupMapChild(e)], [DupMapSelf(e), DupEnd(e)]);
    } else {
      Exec1(s2, DupEnd(e));
      ExecAppend(s, [DupStart(e, p), DupMapChild(e)], [DupEnd(e)]);
    }
  }
}
