// Copy-on-write fork (lib/fork.c) as a state machine over system calls and memory accesses.
//
// Every transition is one kernel entry (sys_page_alloc, sys_page_map, sys_page_unmap run under the
// big kernel lock), one user memory access, or one byte of the memmove inside pgfault.  Environments
// interleave at that granularity.  A second, eager machine has no copy-on-write at all: there a page
// is duplicated once, at one instant inside the duppage call.
module CowFork {

  const PGSIZE: nat := 4096

  // The virtual page PFTEMP; user programs keep nothing there.
  const PFTEMP: nat := 0x7ff

  type Page = s: seq<nat> | |s| == PGSIZE witness seq(PGSIZE, _ => 0)

  datatype Loc = Loc(env: nat, vpn: nat)

  // A present user mapping: frame and the PTE_W, PTE_COW and PTE_SHARE bits.
  datatype Pte = Pte(frame: nat, w: bool, cow: bool, share: bool)

  // Where an environment stands inside pgfault().
  datatype Fault =
    | NoFault
    | Entered(p: nat)                 // trapped, before sys_page_alloc
    | Copying(p: nat, i: nat)         // PFTEMP holds a fresh page, i bytes copied
    | Moved(p: nat)                   // the fresh page is at p and still at PFTEMP

  // Where an environment stands inside duppage().
  datatype Window =
    | Between
    | PermRead(p: nat, perm: Pte)                    // perm holds the bits read from uvpt
    | ChildMapped(p: nat, perm: Pte, copied: bool)   // first sys_page_map done
    | SelfMapped(p: nat)                             // about to return

  datatype Fork = Idle | Forking(child: nat, done: set<nat>, win: Window)

  datatype State = State(
    pt: map<Loc, Pte>,
    mem: map<nat, Page>,
    fault: map<nat, Fault>,   // keys: the environments that exist
    fork: map<nat, Fork>,
    embryos: set<nat>         // created by sys_exofork, not yet runnable
  )

  datatype Step =
    | Read(e: nat, p: nat, off: nat)
    | Write(e: nat, p: nat, off: nat, b: nat)
    | FaultEnter(e: nat, p: nat)
    | FaultAlloc(e: nat, f: nat, stale: Page)
    | FaultCopy(e: nat)
    | FaultMove(e: nat)
    | FaultDone(e: nat)
    | ForkStart(e: nat, c: nat)
    | DupStart(e: nat, p: nat)
    | DupMapChild(e: nat)
    | DupMapSelf(e: nat)
    | DupEnd(e: nat)
    | ForkEnd(e: nat)

  // ------------------------------------------------------------------
  // The implementation machine
  // ------------------------------------------------------------------

  predicate Runs(s: State, e: nat) {
    e in s.fault && e in s.fork && e !in s.embryos
  }

  // Executing ordinary code, not the page fault handler.
  predicate Plain(s: State, e: nat) {
    Runs(s, e) && s.fault[e] == NoFault
  }

  predicate FreeFrame(s: State, f: nat) {
    forall l :: l in s.pt ==> s.pt[l].frame != f
  }

  predicate Needs2(perm: Pte) {
    !perm.share && (perm.w || perm.cow)
  }

  // The permission bits duppage hands to both sys_page_map calls.
  function DupPerm(perm: Pte): Pte {
    if Needs2(perm) then perm.(w := false, cow := true) else perm
  }

  predicate InWindow(s: State, e: nat) {
    Plain(s, e) && s.fork[e].Forking?
  }

  // A write fault that line 34 lets through.
  predicate FaultTaken(s: State, e: nat, p: nat) {
    Plain(s, e) && p != PFTEMP && Loc(e, p) in s.pt && !s.pt[Loc(e, p)].w
  }

  function TakeFault(s: State, e: nat, p: nat): State {
    s.(fault := s.fault[e := Entered(p)])
  }

  predicate FaultGuard(s: State, e: nat, p: nat)
    requires e in s.fork && Loc(e, p) in s.pt
  {
    s.pt[Loc(e, p)].cow || !(s.fork[e].Forking? && s.fork[e].win.PermRead? && s.fork[e].win.p == p)
  }

  predicate Enabled(s: State, t: Step) {
    match t
    case Read(e, p, off) =>
      Plain(s, e) && p != PFTEMP && Loc(e, p) in s.pt && s.pt[Loc(e, p)].frame in s.mem && off < PGSIZE
    case Write(e, p, off, b) =>
      Plain(s, e) && p != PFTEMP && Loc(e, p) in s.pt && s.pt[Loc(e, p)].w && s.pt[Loc(e, p)].frame in s.mem && off < PGSIZE
    case FaultEnter(e, p) =>
      // Hypothesis: no write fault on a shared page, nor on a read-only page whose bits duppage holds.
      FaultTaken(s, e, p) && !s.pt[Loc(e, p)].share && FaultGuard(s, e, p)
    case FaultAlloc(e, f, stale) =>
      Runs(s, e) && s.fault[e].Entered? && FreeFrame(s, f)
    case FaultCopy(e) =>
      Runs(s, e) && s.fault[e].Copying? && s.fault[e].i < PGSIZE
      && Loc(e, PFTEMP) in s.pt && Loc(e, s.fault[e].p) in s.pt
      && s.pt[Loc(e, PFTEMP)].frame in s.mem && s.pt[Loc(e, s.fault[e].p)].frame in s.mem
    case FaultMove(e) =>
      Runs(s, e) && s.fault[e].Copying? && s.fault[e].i == PGSIZE && Loc(e, PFTEMP) in s.pt
    case FaultDone(e) =>
      Runs(s, e) && s.fault[e].Moved?
    case ForkStart(e, c) =>
      Plain(s, e) && s.fork[e].Idle? && c !in s.fault
    case DupStart(e, p) =>
      InWindow(s, e) && s.fork[e].win.Between? && p !in s.fork[e].done && p != PFTEMP && Loc(e, p) in s.pt
    case DupMapChild(e) =>
      InWindow(s, e) && s.fork[e].win.PermRead? && Loc(e, s.fork[e].win.p) in s.pt
    case DupMapSelf(e) =>
      InWindow(s, e) && s.fork[e].win.ChildMapped? && Needs2(s.fork[e].win.perm) && Loc(e, s.fork[e].win.p) in s.pt
    case DupEnd(e) =>
      InWindow(s, e)
      && (s.fork[e].win.SelfMapped? || (s.fork[e].win.ChildMapped? && !Needs2(s.fork[e].win.perm)))
    case ForkEnd(e) =>
      InWindow(s, e) && s.fork[e].win.Between?
  }

  // sys_page_map(src, dst, perm) refuses to grant PTE_W over a read-only source mapping.
  function MapPage(pt: map<Loc, Pte>, src: Loc, dst: Loc, perm: Pte): map<Loc, Pte>
    requires src in pt
  {
    if perm.w && !pt[src].w then pt else pt[dst := perm.(frame := pt[src].frame)]
  }

  function Apply(s: State, t: Step): State
    requires Enabled(s, t)
  {
    match t
    case Read(e, p, off) => s
    case Write(e, p, off, b) =>
      var f := s.pt[Loc(e, p)].frame;
      s.(mem := s.mem[f := s.mem[f][off := b]])
    case FaultEnter(e, p) => TakeFault(s, e, p)
    case FaultAlloc(e, f, stale) =>
      s.(pt := s.pt[Loc(e, PFTEMP) := Pte(f, true, false, false)],
         mem := s.mem[f := stale],
         fault := s.fault[e := Copying(s.fault[e].p, 0)])
    case FaultCopy(e) =>
      var p, i := s.fault[e].p, s.fault[e].i;
      var src, dst := s.pt[Loc(e, p)].frame, s.pt[Loc(e, PFTEMP)].frame;
      s.(mem := s.mem[dst := s.mem[dst][i := s.mem[src][i]]],
         fault := s.fault[e := Copying(p, i + 1)])
    case FaultMove(e) =>
      var p := s.fault[e].p;
      s.(pt := MapPage(s.pt, Loc(e, PFTEMP), Loc(e, p), Pte(0, true, false, false)),
         fault := s.fault[e := Moved(p)])
    case FaultDone(e) =>
      s.(pt := s.pt - {Loc(e, PFTEMP)}, fault := s.fault[e := NoFault])
    case ForkStart(e, c) =>
      s.(fault := s.fault[c := NoFault],
         fork := s.fork[e := Forking(c, {}, Between)][c := Idle],
         embryos := s.embryos + {c})
    case DupStart(e, p) =>
      s.(fork := s.fork[e := s.fork[e].(win := PermRead(p, s.pt[Loc(e, p)]), done := s.fork[e].done + {p})])
    case DupMapChild(e) =>
      var fk := s.fork[e];
      var p, perm := fk.win.p, fk.win.perm;
      var copied := !(Needs2(perm) && s.pt[Loc(e, p)].w);
      s.(pt := MapPage(s.pt, Loc(e, p), Loc(fk.child, p), DupPerm(perm)),
         fork := s.fork[e := fk.(win := ChildMapped(p, perm, copied))])
    case DupMapSelf(e) =>
      var fk := s.fork[e];
      var p, perm := fk.win.p, fk.win.perm;
      s.(pt := MapPage(s.pt, Loc(e, p), Loc(e, p), DupPerm(perm)),
         fork := s.fork[e := fk.(win := SelfMapped(p))])
    case DupEnd(e) =>
      s.(fork := s.fork[e := s.fork[e].(win := Between)])
    case ForkEnd(e) =>
      s.(fork := s.fork[e := Idle], embryos := s.embryos - {s.fork[e].child})
  }

  // ------------------------------------------------------------------
  // The eager machine
  // ------------------------------------------------------------------

  // A location denotes an object; the copies of a shared page denote one common object.
  datatype Obj = Private(l: Loc) | Common(id: nat)

  datatype Eager = Eager(home: map<Loc, Obj>, data: map<Obj, Page>)

  datatype Event =
    | Tau
    | Store(l: Loc, off: nat, b: nat)
    | CopyPage(src: Loc, dst: Loc)    // dst becomes a private copy of src
    | SharePage(src: Loc, dst: Loc)   // dst becomes an alias of src

  predicate EagerOk(v: Eager, ev: Event) {
    match ev
    case Tau => true
    case Store(l, off, b) => l in v.home && v.home[l] in v.data && off < PGSIZE
    case CopyPage(src, dst) => src in v.home && v.home[src] in v.data && dst !in v.home
    case SharePage(src, dst) => src in v.home && dst !in v.home
  }

  function EagerApply(v: Eager, ev: Event): Eager
    requires EagerOk(v, ev)
  {
    match ev
    case Tau => v
    case Store(l, off, b) =>
      var h := v.home[l];
      v.(data := v.data[h := v.data[h][off := b]])
    case CopyPage(src, dst) =>
      Eager(v.home[dst := Private(dst)], v.data[Private(dst) := v.data[v.home[src]]])
    case SharePage(src, dst) =>
      v.(home := v.home[dst := v.home[src]])
  }

  // What a step means to the eager machine.  A writable page is copied when the parent's mapping
  // loses PTE_W; any other private page when the child's mapping appears.
  function EventOf(s: State, t: Step): Event
    requires Enabled(s, t)
  {
    match t
    case Write(e, p, off, b) => Store(Loc(e, p), off, b)
    case DupMapChild(e) =>
      var fk := s.fork[e];
      var p, perm := fk.win.p, fk.win.perm;
      if perm.share then SharePage(Loc(e, p), Loc(fk.child, p))
      else if Needs2(perm) && s.pt[Loc(e, p)].w then Tau
      else CopyPage(Loc(e, p), Loc(fk.child, p))
    case DupMapSelf(e) =>
      var fk := s.fork[e];
      if fk.win.copied then Tau else CopyPage(Loc(e, fk.win.p), Loc(fk.child, fk.win.p))
    case _ => Tau
  }

  // ------------------------------------------------------------------
  // Invariant
  // ------------------------------------------------------------------

  // The one page whose duplication is under way but not yet decided: the parent still writes it.
  ghost predicate Undecided(s: State, parent: nat, child: nat, p: nat) {
    parent in s.fork && s.fork[parent].Forking? && s.fork[parent].child == child
    && s.fork[parent].win.ChildMapped? && s.fork[parent].win.p == p && !s.fork[parent].win.copied
  }

  ghost predicate Pending(s: State, l: Loc) {
    exists parent :: Undecided(s, parent, l.env, l.vpn)
  }

  ghost predicate Moving(s: State, e: nat, p: nat) {
    e in s.fault && s.fault[e] == Moved(p)
  }

  // The two windows in which a writable private frame may have a second mapping.
  ghost predicate Allowed(s: State, a: Loc, b: Loc) {
    || (a.env == b.env && a.vpn == PFTEMP && Moving(s, a.env, b.vpn))
    || (a.env == b.env && b.vpn == PFTEMP && Moving(s, a.env, a.vpn))
    || (a.vpn == b.vpn && Undecided(s, a.env, b.env, a.vpn))
  }

  // A private frame that a can write and b also maps.
  ghost predicate Clash(s: State, a: Loc, b: Loc) {
    a in s.pt && b in s.pt && a != b && s.pt[a].frame == s.pt[b].frame && s.pt[a].w && !s.pt[a].share
  }

  ghost predicate Exclusive(s: State) {
    forall a, b :: Clash(s, a, b) ==> Allowed(s, a, b)
  }

  ghost predicate ShareApart(s: State) {
    forall a, b :: a in s.pt && b in s.pt && s.pt[a].frame == s.pt[b].frame ==> s.pt[a].share == s.pt[b].share
  }

  ghost predicate PteOk(s: State, l: Loc)
    requires l in s.pt
  {
    && l.env in s.fault
    && s.pt[l].frame in s.mem
    && !(s.pt[l].w && s.pt[l].cow)
    && !(s.pt[l].share && s.pt[l].cow)
  }

  ghost predicate Ptes(s: State) {
    forall l :: l in s.pt ==> PteOk(s, l)
  }

  ghost predicate FaultOk(s: State, e: nat)
    requires e in s.fault && e in s.fork
  {
    var tmp := Loc(e, PFTEMP);
    match s.fault[e]
    case NoFault => tmp !in s.pt
    case Entered(p) =>
      tmp !in s.pt && p != PFTEMP && Loc(e, p) in s.pt
      && !s.pt[Loc(e, p)].w && !s.pt[Loc(e, p)].share && FaultGuard(s, e, p)
    case Copying(p, i) =>
      && tmp in s.pt && s.pt[tmp].w && !s.pt[tmp].share && i <= PGSIZE
      && p != PFTEMP && Loc(e, p) in s.pt
      && !s.pt[Loc(e, p)].w && !s.pt[Loc(e, p)].share && FaultGuard(s, e, p)
      && s.pt[tmp].frame in s.mem && s.pt[Loc(e, p)].frame in s.mem
      && s.mem[s.pt[tmp].frame][..i] == s.mem[s.pt[Loc(e, p)].frame][..i]
    case Moved(p) =>
      && tmp in s.pt && p != PFTEMP && Loc(e, p) in s.pt
      && s.pt[tmp].frame == s.pt[Loc(e, p)].frame
      && s.pt[tmp].w && s.pt[Loc(e, p)].w && !s.pt[tmp].share && !s.pt[Loc(e, p)].share
  }

  ghost predicate Faults(s: State)
    requires s.fork.Keys == s.fault.Keys
  {
    forall e :: e in s.fault ==> FaultOk(s, e)
  }

  ghost predicate ForkOk(s: State, e: nat)
    requires e in s.fork
  {
    s.fork[e].Forking? ==>
      var c, win := s.fork[e].child, s.fork[e].win;
      && c != e && c in s.embryos && c in s.fault && e !in s.embryos
      && (forall q :: Loc(c, q) in s.pt ==> q in s.fork[e].done)
      && match win
         case Between => true
         case PermRead(p, perm) =>
           && p != PFTEMP && p in s.fork[e].done && Loc(e, p) in s.pt && Loc(c, p) !in s.pt
           && perm.share == s.pt[Loc(e, p)].share
           && (!Needs2(perm) ==> perm.w == s.pt[Loc(e, p)].w && perm.cow == s.pt[Loc(e, p)].cow)
           && (Needs2(perm) ==> s.pt[Loc(e, p)].w || s.pt[Loc(e, p)].cow)
         case ChildMapped(p, perm, copied) =>
           && p != PFTEMP && p in s.fork[e].done && Loc(e, p) in s.pt && Loc(c, p) in s.pt
           && perm.share == s.pt[Loc(e, p)].share == s.pt[Loc(c, p)].share
           && (Needs2(perm) ==> s.pt[Loc(e, p)].w || s.pt[Loc(e, p)].cow)
           && (!copied ==> Needs2(perm) && s.pt[Loc(e, p)].w && s.pt[Loc(c, p)].frame == s.pt[Loc(e, p)].frame
                           && s.pt[Loc(c, p)].cow)
         case SelfMapped(p) => true
  }

  ghost predicate Forks(s: State) {
    && s.fork.Keys == s.fault.Keys
    && s.embryos <= s.fault.Keys
    && (forall e :: e in s.fork ==> ForkOk(s, e))
    && Children(s)
  }

  // A child has one parent and does nothing before it is made runnable.
  ghost predicate Children(s: State)
    requires s.fork.Keys == s.fault.Keys && s.embryos <= s.fault.Keys
  {
    && (forall e, d :: e in s.fork && d in s.fork && e != d && s.fork[e].Forking? && s.fork[d].Forking?
          ==> s.fork[e].child != s.fork[d].child)
    && (forall c :: c in s.embryos ==> s.fault[c] == NoFault && s.fork[c] == Idle)
  }

  ghost predicate Inv(s: State) {
    Ptes(s) && ShareApart(s) && Exclusive(s) && Forks(s) && Faults(s)
  }

  // A location both machines know about.
  ghost predicate Visible(s: State, l: Loc) {
    l in s.pt && l.vpn != PFTEMP && !Pending(s, l)
  }

  function HomeOf(s: State, l: Loc): Obj
    requires l in s.pt
  {
    if s.pt[l].share then Common(s.pt[l].frame) else Private(l)
  }

  ghost predicate Agree(s: State, v: Eager) {
    && (forall l :: l in v.home <==> Visible(s, l))
    && (forall l :: l in v.home ==> AgreeAt(s, v, l))
  }

  ghost predicate AgreeAt(s: State, v: Eager, l: Loc)
    requires l in s.pt && l in v.home
  {
    && v.home[l] == HomeOf(s, l)
    && v.home[l] in v.data && s.pt[l].frame in s.mem
    && v.data[v.home[l]] == s.mem[s.pt[l].frame]
  }

  lemma PtesStep(s: State, t: Step)
    requires Inv(s) && Enabled(s, t)
    ensures Ptes(Apply(s, t))
  {
  }

  lemma ShareApartStep(s: State, t: Step)
    requires Inv(s) && Enabled(s, t)
    ensures ShareApart(Apply(s, t))
  {
  }

  lemma MovingKept(s: State, t: Step, e: nat, p: nat)
    requires Enabled(s, t) && Moving(s, e, p) && !t.FaultDone?
    requires t.ForkStart? ==> t.c != e
    ensures Moving(Apply(s, t), e, p)
  {
  }

  lemma UndecidedKept(s: State, t: Step, e: nat, c: nat, p: nat)
    requires Inv(s) && Enabled(s, t) && Undecided(s, e, c, p) && !t.DupMapSelf?
    ensures Undecided(Apply(s, t), e, c, p)
  {
    assert t.DupEnd? ==> ForkOk(s, t.e);
  }

  // No step ends a window except the one that removes its second mapping.
  lemma AllowedKept(s: State, t: Step, a: Loc, b: Loc)
    requires Inv(s) && Enabled(s, t)
    requires Allowed(s, a, b)
    requires !t.FaultDone? && !t.DupMapSelf?
    ensures Allowed(Apply(s, t), a, b)
  {
    if Undecided(s, a.env, b.env, a.vpn) {
      UndecidedKept(s, t, a.env, b.env, a.vpn);
    }
    hide Apply, Inv;
    if Moving(s, a.env, b.vpn) {
      MovingKept(s, t, a.env, b.vpn);
    }
    if Moving(s, a.env, a.vpn) {
      MovingKept(s, t, a.env, a.vpn);
    }
  }

  lemma ExclusiveAlloc(s: State, t: Step, a: Loc, b: Loc)
    requires Inv(s) && Enabled(s, t) && t.FaultAlloc?
    requires Clash(Apply(s, t), a, b)
    ensures Allowed(Apply(s, t), a, b)
  {
    var tmp := Loc(t.e, PFTEMP);
    assert a != tmp && b != tmp;
    assert Clash(s, a, b);
    AllowedKept(s, t, a, b);
  }

  // While the copy is in progress the fresh page has one mapping.
  lemma FreshAlone(s: State, e: nat, l: Loc)
    requires Inv(s) && e in s.fault && s.fault[e].Copying?
    requires l in s.pt && l != Loc(e, PFTEMP)
    ensures s.pt[l].frame != s.pt[Loc(e, PFTEMP)].frame
  {
    var tmp := Loc(e, PFTEMP);
    assert FaultOk(s, e) && ForkOk(s, e);
    assert Clash(s, tmp, l) ==> Allowed(s, tmp, l);
  }

  lemma ExclusiveMove(s: State, t: Step, a: Loc, b: Loc)
    requires Inv(s) && Enabled(s, t) && t.FaultMove?
    requires Clash(Apply(s, t), a, b)
    ensures Allowed(Apply(s, t), a, b)
  {
    var e, p := t.e, s.fault[t.e].p;
    assert FaultOk(s, e);
    if a == Loc(e, p) && b != Loc(e, PFTEMP) {
      FreshAlone(s, e, b);
    } else if b == Loc(e, p) && a != Loc(e, PFTEMP) {
      FreshAlone(s, e, a);
    } else if a != Loc(e, p) && b != Loc(e, p) {
      assert Clash(s, a, b);
      AllowedKept(s, t, a, b);
    }
  }

  lemma ExclusiveDone(s: State, t: Step, a: Loc, b: Loc)
    requires Inv(s) && Enabled(s, t) && t.FaultDone?
    requires Clash(Apply(s, t), a, b)
    ensures Allowed(Apply(s, t), a, b)
  {
    assert Clash(s, a, b);
    assert Allowed(s, a, b);
    assert a != Loc(t.e, PFTEMP) && b != Loc(t.e, PFTEMP);
  }

  // A page that its environment is about to duplicate is mapped writably nowhere else.
  lemma SourceAlone(s: State, e: nat, l: Loc)
    requires Inv(s) && InWindow(s, e) && s.fork[e].win.PermRead?
    requires l in s.pt && l != Loc(e, s.fork[e].win.p)
    requires s.pt[l].frame == s.pt[Loc(e, s.fork[e].win.p)].frame && !s.pt[l].share
    ensures !s.pt[l].w
  {
    var src := Loc(e, s.fork[e].win.p);
    assert ForkOk(s, e);
    assert Ptes(s);
    assert ForkOk(s, l.env);
    assert Clash(s, l, src) ==> Allowed(s, l, src);
  }

  lemma ExclusiveMapChild(s: State, t: Step, a: Loc, b: Loc)
    requires Inv(s) && Enabled(s, t) && t.DupMapChild?
    requires Clash(Apply(s, t), a, b)
    ensures Allowed(Apply(s, t), a, b)
  {
    var s' := Apply(s, t);
    var e, c, p := t.e, s.fork[t.e].child, s.fork[t.e].win.p;
    assert ForkOk(s, e);
    if b == Loc(c, p) {
      if a != Loc(e, p) {
        assert s.pt[a] == s'.pt[a];
        SourceAlone(s, e, a);
      }
    } else if a != Loc(c, p) {
      assert Clash(s, a, b);
      AllowedKept(s, t, a, b);
    }
  }

  lemma ExclusiveMapSelf(s: State, t: Step, a: Loc, b: Loc)
    requires Inv(s) && Enabled(s, t) && t.DupMapSelf?
    requires Clash(Apply(s, t), a, b)
    ensures Allowed(Apply(s, t), a, b)
  {
    var e, p := t.e, s.fork[t.e].win.p;
    assert ForkOk(s, e);
    assert a != Loc(e, p);
    assert Clash(s, a, b);
    assert Allowed(s, a, b);
  }

  lemma ExclusiveStep(s: State, t: Step)
    requires Inv(s) && Enabled(s, t)
    ensures Exclusive(Apply(s, t))
  {
    forall a, b | Clash(Apply(s, t), a, b)
      ensures Allowed(Apply(s, t), a, b)
    {
      match t
      case FaultAlloc(_, _, _) => ExclusiveAlloc(s, t, a, b);
      case FaultMove(_) => ExclusiveMove(s, t, a, b);
      case FaultDone(_) => ExclusiveDone(s, t, a, b);
      case DupMapChild(_) => ExclusiveMapChild(s, t, a, b);
      case DupMapSelf(_) => ExclusiveMapSelf(s, t, a, b);
      case _ =>
        assert Clash(s, a, b);
        AllowedKept(s, t, a, b);
    }
  }

  // The environments whose mappings a step may change.
  predicate Touches(s: State, t: Step, d: nat)
    requires Enabled(s, t)
  {
    d == t.e || (t.DupMapChild? && d == s.fork[t.e].child)
  }

  ghost predicate SameMappings(s: State, s': State, d: nat) {
    forall q :: (Loc(d, q) in s'.pt <==> Loc(d, q) in s.pt)
             && (Loc(d, q) in s.pt ==> s'.pt[Loc(d, q)] == s.pt[Loc(d, q)])
  }

  lemma UntouchedMappings(s: State, t: Step, d: nat)
    requires Enabled(s, t) && !Touches(s, t, d)
    ensures SameMappings(s, Apply(s, t), d)
  {
  }

  // What ForkOk depends on.
  lemma ForkOkFrame(s: State, s': State, d: nat)
    requires d in s.fork && d in s'.fork && s'.fork[d] == s.fork[d] && s.fork[d].Forking? && ForkOk(s, d)
    requires s.fork[d].child in s'.embryos && s.fork[d].child in s'.fault && d !in s'.embryos
    requires SameMappings(s, s', d) && SameMappings(s, s', s.fork[d].child)
    ensures ForkOk(s', d)
  {
  }

  // Nobody else's program point changes, nor is anybody else's child made runnable.
  lemma UntouchedEnv(s: State, t: Step, d: nat)
    requires Enabled(s, t) && s.fork.Keys == s.fault.Keys && d in s.fork && d != t.e
    ensures var s' := Apply(s, t);
      && d in s'.fork && d in s'.fault && s'.fork[d] == s.fork[d] && s'.fault[d] == s.fault[d]
      && (d in s'.embryos ==> d in s.embryos)
      && s.fault.Keys <= s'.fault.Keys
  {
  }

  lemma UntouchedChild(s: State, t: Step, d: nat)
    requires Inv(s) && Enabled(s, t) && d in s.fork && d != t.e && s.fork[d].Forking?
    ensures s.fork[d].child in Apply(s, t).embryos && !Touches(s, t, s.fork[d].child) && !Touches(s, t, d)
  {
    assert ForkOk(s, d) && ForkOk(s, t.e);
  }

  lemma ForkOkOther(s: State, t: Step, d: nat)
    requires Inv(s) && Enabled(s, t)
    requires d in s.fork && d != t.e
    ensures d in Apply(s, t).fork && ForkOk(Apply(s, t), d)
  {
    UntouchedEnv(s, t, d);
    if s.fork[d].Forking? {
      assert ForkOk(s, d);
      UntouchedChild(s, t, d);
      hide Apply, Enabled, Touches;
      UntouchedMappings(s, t, d);
      UntouchedMappings(s, t, s.fork[d].child);
      ForkOkFrame(s, Apply(s, t), d);
    }
  }

  // The parent's own handler may run in the middle of duppage.
  lemma ForkOkHandler(s: State, t: Step)
    requires Inv(s) && Enabled(s, t) && (t.FaultAlloc? || t.FaultMove? || t.FaultDone?)
    ensures t.e in Apply(s, t).fork && ForkOk(Apply(s, t), t.e)
  {
    assert ForkOk(s, t.e) && FaultOk(s, t.e);
    if s.fork[t.e].Forking? {
      UntouchedMappings(s, t, s.fork[t.e].child);
    }
  }

  lemma ForkOkSelf(s: State, t: Step)
    requires Inv(s) && Enabled(s, t)
    ensures t.e in Apply(s, t).fork && ForkOk(Apply(s, t), t.e)
  {
    if t.FaultAlloc? || t.FaultMove? || t.FaultDone? {
      ForkOkHandler(s, t);
    } else {
      assert ForkOk(s, t.e) && FaultOk(s, t.e);
    }
  }

  lemma ForkPairsStep(s: State, t: Step, e: nat, d: nat)
    requires Inv(s) && Enabled(s, t)
    requires var s' := Apply(s, t);
      e in s'.fork && d in s'.fork && e != d && s'.fork[e].Forking? && s'.fork[d].Forking?
    ensures Apply(s, t).fork[e].child != Apply(s, t).fork[d].child
  {
    assert e in s.fork ==> ForkOk(s, e);
    assert d in s.fork ==> ForkOk(s, d);
  }

  lemma EmbryosStep(s: State, t: Step, c: nat)
    requires Inv(s) && Enabled(s, t) && c in Apply(s, t).embryos
    ensures var s' := Apply(s, t); c in s'.fault && c in s'.fork && s'.fault[c] == NoFault && s'.fork[c] == Idle
  {
    assert t.e !in s.embryos;
    if c in s.embryos {
      hide Apply;
      UntouchedEnv(s, t, c);
    }
  }

  lemma ChildrenStep(s: State, t: Step)
    requires Inv(s) && Enabled(s, t)
    ensures var s' := Apply(s, t);
      s'.fork.Keys == s'.fault.Keys && s'.embryos <= s'.fault.Keys && Children(s')
  {
    var s' := Apply(s, t);
    forall e, d | e in s'.fork && d in s'.fork && e != d && s'.fork[e].Forking? && s'.fork[d].Forking?
      ensures s'.fork[e].child != s'.fork[d].child
    {
      ForkPairsStep(s, t, e, d);
    }
    forall c | c in s'.embryos
      ensures c in s'.fault && c in s'.fork && s'.fault[c] == NoFault && s'.fork[c] == Idle
    {
      EmbryosStep(s, t, c);
    }
  }

  lemma ForksStep(s: State, t: Step)
    requires Inv(s) && Enabled(s, t)
    ensures Forks(Apply(s, t))
  {
    var s' := Apply(s, t);
    assert s'.fork.Keys == s'.fault.Keys && s'.embryos <= s'.fault.Keys;
    forall d | d in s'.fork
      ensures ForkOk(s', d)
    {
      if d == t.e {
        ForkOkSelf(s, t);
      } else if d in s.fork {
        ForkOkOther(s, t, d);
      }
    }
    ChildrenStep(s, t);
  }

  // A page that is being copied is writable nowhere.
  lemma SourceStill(s: State, e: nat, l: Loc)
    requires Inv(s) && e in s.fault && s.fault[e].Copying?
    requires l in s.pt && s.pt[l].w
    ensures s.pt[l].frame != s.pt[Loc(e, s.fault[e].p)].frame
  {
    var src := Loc(e, s.fault[e].p);
    assert FaultOk(s, e) && ForkOk(s, e) && Ptes(s);
    assert ForkOk(s, l.env);
    assert Clash(s, l, src) ==> Allowed(s, l, src);
  }

  // Nobody else writes the page being copied or the fresh page.
  lemma StillCopying(s: State, t: Step, d: nat)
    requires Inv(s) && Enabled(s, t)
    requires d in s.fault && d != t.e && s.fault[d].Copying?
    ensures FaultOk(s, d)
    ensures var src, tmp := s.pt[Loc(d, s.fault[d].p)].frame, s.pt[Loc(d, PFTEMP)].frame;
      var s' := Apply(s, t);
      src in s'.mem && s'.mem[src] == s.mem[src] && tmp in s'.mem && s'.mem[tmp] == s.mem[tmp]
  {
    assert FaultOk(s, d) && FaultOk(s, t.e);
    if t.Write? {
      FreshAlone(s, d, Loc(t.e, t.p));
      SourceStill(s, d, Loc(t.e, t.p));
    } else if t.FaultCopy? {
      FreshAlone(s, t.e, Loc(d, s.fault[d].p));
      FreshAlone(s, t.e, Loc(d, PFTEMP));
    }
  }

  lemma FaultOkOther(s: State, t: Step, d: nat)
    requires Inv(s) && Enabled(s, t)
    requires d in s.fault && d != t.e
    ensures FaultOk(Apply(s, t), d)
  {
    var s', tmp := Apply(s, t), Loc(d, PFTEMP);
    assert FaultOk(s, d) && ForkOk(s, t.e);
    assert d in s.embryos ==> s.fault[d] == NoFault;
    if s.fault[d].NoFault? {
      assert tmp !in s'.pt;
    } else {
      UntouchedMappings(s, t, d);
      if s.fault[d].Copying? {
        StillCopying(s, t, d);
      }
    }
  }

  lemma FaultOkSelf(s: State, t: Step)
    requires Inv(s) && Enabled(s, t)
    ensures FaultOk(Apply(s, t), t.e)
  {
    assert FaultOk(s, t.e);
  }

  lemma FaultsStep(s: State, t: Step)
    requires Inv(s) && Enabled(s, t)
    ensures Apply(s, t).fork.Keys == Apply(s, t).fault.Keys && Faults(Apply(s, t))
  {
    var s' := Apply(s, t);
    assert s'.fork.Keys == s'.fault.Keys;
    forall d | d in s'.fault
      ensures FaultOk(s', d)
    {
      if d == t.e {
        FaultOkSelf(s, t);
      } else if d in s.fault {
        FaultOkOther(s, t, d);
      }
    }
  }

  lemma InvStep(s: State, t: Step)
    requires Inv(s) && Enabled(s, t)
    ensures Inv(Apply(s, t))
  {
    PtesStep(s, t);
    ShareApartStep(s, t);
    ExclusiveStep(s, t);
    ForksStep(s, t);
    FaultsStep(s, t);
  }

  // ------------------------------------------------------------------
  // The eager machine follows every step
  // ------------------------------------------------------------------

  // Steps that change neither mappings nor page contents.
  predicate Quiet(t: Step) {
    t.Read? || t.FaultEnter? || t.ForkStart? || t.DupStart? || t.DupEnd? || t.ForkEnd?
  }

  // A running environment's own pages are not pending.
  lemma RunningVisible(s: State, e: nat, p: nat)
    requires Inv(s) && Runs(s, e) && p != PFTEMP && Loc(e, p) in s.pt
    ensures Visible(s, Loc(e, p))
  {
    assert forall parent :: parent in s.fork ==> ForkOk(s, parent);
  }

  // Only the two sys_page_map calls of duppage change which pages are undecided.
  lemma PendingKept(s: State, t: Step, l: Loc)
    requires Inv(s) && Enabled(s, t)
    requires !t.DupMapChild? && !t.DupMapSelf?
    ensures Pending(Apply(s, t), l) <==> Pending(s, l)
  {
    var s' := Apply(s, t);
    assert ForkOk(s, t.e);
    forall parent
      ensures Undecided(s', parent, l.env, l.vpn) <==> Undecided(s, parent, l.env, l.vpn)
    {
    }
  }

  lemma QuietKeeps(s: State, t: Step)
    requires Enabled(s, t) && Quiet(t)
    ensures Apply(s, t).pt == s.pt && Apply(s, t).mem == s.mem
  {
  }

  lemma AgreeQuiet(s: State, v: Eager, t: Step)
    requires Inv(s) && Agree(s, v) && Enabled(s, t) && Quiet(t)
    ensures Agree(Apply(s, t), v)
  {
    QuietKeeps(s, t);
    hide Apply, Enabled, Inv, Pending;
    forall l
      ensures l in v.home <==> Visible(Apply(s, t), l)
    {
      PendingKept(s, t, l);
    }
    forall l | l in v.home
      ensures AgreeAt(Apply(s, t), v, l)
    {
      assert AgreeAt(s, v, l);
    }
  }

  // The handler maps and unmaps nothing but PFTEMP, which the eager machine does not know.
  lemma HandlerVisible(s: State, t: Step, l: Loc)
    requires Inv(s) && Enabled(s, t)
    requires t.FaultAlloc? || t.FaultCopy? || t.FaultMove? || t.FaultDone?
    ensures Visible(Apply(s, t), l) <==> Visible(s, l)
  {
    assert FaultOk(s, t.e);
    PendingKept(s, t, l);
    hide Pending;
  }

  lemma HandlerData(s: State, v: Eager, t: Step, l: Loc)
    requires Inv(s) && Enabled(s, t)
    requires t.FaultAlloc? || t.FaultCopy? || t.FaultMove? || t.FaultDone?
    requires l in s.pt && l in Apply(s, t).pt && l in v.home && l.vpn != PFTEMP && AgreeAt(s, v, l)
    ensures AgreeAt(Apply(s, t), v, l)
  {
    assert FaultOk(s, t.e);
    if t.FaultCopy? {
      FreshAlone(s, t.e, l);
    }
  }

  lemma AgreeFault(s: State, v: Eager, t: Step)
    requires Inv(s) && Agree(s, v) && Enabled(s, t)
    requires t.FaultAlloc? || t.FaultCopy? || t.FaultMove? || t.FaultDone?
    ensures Agree(Apply(s, t), v)
  {
    hide Inv, Apply, Pending;
    forall l
      ensures l in v.home <==> Visible(Apply(s, t), l)
    {
      HandlerVisible(s, t, l);
    }
    forall l | l in v.home
      ensures AgreeAt(Apply(s, t), v, l)
    {
      assert AgreeAt(s, v, l);
      HandlerData(s, v, t, l);
    }
  }

  lemma AgreeWrite(s: State, v: Eager, t: Step)
    requires Inv(s) && Agree(s, v) && Enabled(s, t) && t.Write?
    ensures EagerOk(v, EventOf(s, t))
    ensures Agree(Apply(s, t), EagerApply(v, EventOf(s, t)))
  {
    var s', w := Apply(s, t), Loc(t.e, t.p);
    RunningVisible(s, t.e, t.p);
    assert AgreeAt(s, v, w);
    var v' := EagerApply(v, EventOf(s, t));
    forall l
      ensures l in v.home <==> Visible(s', l)
    {
      PendingKept(s, t, l);
    }
    forall l | l in v.home
      ensures AgreeAt(s', v', l)
    {
      assert AgreeAt(s, v, l);
      assert Clash(s, w, l) ==> Allowed(s, w, l);
      assert Undecided(s, w.env, l.env, l.vpn) ==> Pending(s, l);
    }
  }

  lemma AgreeMapChild(s: State, v: Eager, t: Step)
    requires Inv(s) && Agree(s, v) && Enabled(s, t) && t.DupMapChild?
    ensures EagerOk(v, EventOf(s, t))
    ensures Agree(Apply(s, t), EagerApply(v, EventOf(s, t)))
  {
    var s', e, p := Apply(s, t), t.e, s.fork[t.e].win.p;
    var src, dst := Loc(e, p), Loc(s.fork[e].child, p);
    assert ForkOk(s, e);
    RunningVisible(s, e, p);
    assert AgreeAt(s, v, src);
    var v' := EagerApply(v, EventOf(s, t));
    forall l
      ensures l in v'.home <==> Visible(s', l)
    {
      PendingMapChild(s, t, l);
    }
    forall l | l in v'.home
      ensures AgreeAt(s', v', l)
    {
      assert l != dst ==> AgreeAt(s, v, l);
    }
  }

  lemma PendingMapChild(s: State, t: Step, l: Loc)
    requires Inv(s) && Enabled(s, t) && t.DupMapChild?
    ensures Pending(Apply(s, t), l) <==>
      (Pending(s, l) || (l == Loc(s.fork[t.e].child, s.fork[t.e].win.p) && EventOf(s, t) == Tau))
  {
    var s', here := Apply(s, t), l == Loc(s.fork[t.e].child, s.fork[t.e].win.p) && EventOf(s, t) == Tau;
    forall parent
      ensures Undecided(s', parent, l.env, l.vpn) <==>
        (Undecided(s, parent, l.env, l.vpn) || (parent == t.e && here))
    {
    }
    assert here ==> Undecided(s', t.e, l.env, l.vpn);
  }

  lemma PendingMapSelf(s: State, t: Step, l: Loc)
    requires Inv(s) && Enabled(s, t) && t.DupMapSelf?
    ensures Pending(Apply(s, t), l) <==> Pending(s, l) && l != Loc(s.fork[t.e].child, s.fork[t.e].win.p)
  {
    var s' := Apply(s, t);
    forall parent
      ensures Undecided(s', parent, l.env, l.vpn) <==> (Undecided(s, parent, l.env, l.vpn) && parent != t.e)
    {
    }
    assert l.env == s.fork[t.e].child ==> forall parent :: Undecided(s, parent, l.env, l.vpn) ==> parent == t.e;
  }

  lemma AgreeMapSelf(s: State, v: Eager, t: Step)
    requires Inv(s) && Agree(s, v) && Enabled(s, t) && t.DupMapSelf?
    ensures EagerOk(v, EventOf(s, t))
    ensures Agree(Apply(s, t), EagerApply(v, EventOf(s, t)))
  {
    var s', e, p := Apply(s, t), t.e, s.fork[t.e].win.p;
    var src, dst := Loc(e, p), Loc(s.fork[e].child, p);
    assert ForkOk(s, e);
    RunningVisible(s, e, p);
    assert AgreeAt(s, v, src);
    assert !s.fork[e].win.copied ==> Undecided(s, e, dst.env, p) && Pending(s, dst);
    var v' := EagerApply(v, EventOf(s, t));
    forall l
      ensures l in v'.home <==> Visible(s', l)
    {
      PendingMapSelf(s, t, l);
    }
    forall l | l in v'.home
      ensures AgreeAt(s', v', l)
    {
      assert l in v.home ==> AgreeAt(s, v, l);
    }
  }

  lemma AgreeStep(s: State, v: Eager, t: Step)
    requires Inv(s) && Agree(s, v) && Enabled(s, t)
    ensures EagerOk(v, EventOf(s, t))
    ensures Agree(Apply(s, t), EagerApply(v, EventOf(s, t)))
  {
    match t
    case Write(_, _, _, _) => AgreeWrite(s, v, t);
    case DupMapChild(_) => AgreeMapChild(s, v, t);
    case DupMapSelf(_) => AgreeMapSelf(s, v, t);
    case FaultAlloc(_, _, _) => AgreeFault(s, v, t);
    case FaultCopy(_) => AgreeFault(s, v, t);
    case FaultMove(_) => AgreeFault(s, v, t);
    case FaultDone(_) => AgreeFault(s, v, t);
    case _ => AgreeQuiet(s, v, t);
  }

  // ------------------------------------------------------------------
  // Whole runs
  // ------------------------------------------------------------------

  predicate IsRun(s: State, ts: seq<Step>)
    decreases |ts|
  {
    ts == [] || (Enabled(s, ts[0]) && IsRun(Apply(s, ts[0]), ts[1..]))
  }

  function Exec(s: State, ts: seq<Step>): State
    requires IsRun(s, ts)
    decreases |ts|
  {
    if ts == [] then s else Exec(Apply(s, ts[0]), ts[1..])
  }

  function Events(s: State, ts: seq<Step>): seq<Event>
    requires IsRun(s, ts)
    decreases |ts|
  {
    if ts == [] then [] else [EventOf(s, ts[0])] + Events(Apply(s, ts[0]), ts[1..])
  }

  predicate IsEagerRun(v: Eager, evs: seq<Event>)
    decreases |evs|
  {
    evs == [] || (EagerOk(v, evs[0]) && IsEagerRun(EagerApply(v, evs[0]), evs[1..]))
  }

  function EagerExec(v: Eager, evs: seq<Event>): Eager
    requires IsEagerRun(v, evs)
    decreases |evs|
  {
    if evs == [] then v else EagerExec(EagerApply(v, evs[0]), evs[1..])
  }

  // Nothing under way: no fork, no fault, every page frame private to one writable mapping.
  ghost predicate Init(s: State) {
    && Ptes(s) && ShareApart(s)
    && s.embryos == {} && s.fork.Keys == s.fault.Keys
    && (forall e :: e in s.fault ==> s.fault[e] == NoFault && s.fork[e] == Idle)
    && (forall l :: l in s.pt ==> l.vpn != PFTEMP)
    && (forall a, b :: !Clash(s, a, b))
  }

  // The eager machine's view of a quiet state.
  function Twin(s: State): Eager
    requires forall l :: l in s.pt ==> s.pt[l].frame in s.mem
  {
    var locs := set l | l in s.pt;
    var objs := (set l | l in s.pt :: HomeOf(s, l));
    Eager(map l | l in locs :: HomeOf(s, l),
          map o | o in objs && ObjFrame(s, o) in s.mem :: s.mem[ObjFrame(s, o)])
  }

  function ObjFrame(s: State, o: Obj): nat {
    match o
    case Private(l) => if l in s.pt then s.pt[l].frame else 0
    case Common(f) => f
  }

  lemma InitAgrees(s: State)
    requires Init(s)
    ensures Inv(s) && Agree(s, Twin(s))
  {
    assert forall e :: e in s.fork ==> !s.fork[e].Forking?;
    assert forall l :: l in s.pt ==> PteOk(s, l) && !Pending(s, l);
  }

  // Copy-on-write fork is eager fork: along every interleaving the eager machine takes the
  // corresponding events, and both machines hold the same bytes.
  lemma {:induction false} CowIsEager(s: State, v: Eager, ts: seq<Step>)
    requires Inv(s) && Agree(s, v) && IsRun(s, ts)
    ensures IsEagerRun(v, Events(s, ts))
    ensures Inv(Exec(s, ts)) && Agree(Exec(s, ts), EagerExec(v, Events(s, ts)))
    decreases |ts|
  {
    if ts != [] {
      InvStep(s, ts[0]);
      AgreeStep(s, v, ts[0]);
      CowIsEager(Apply(s, ts[0]), EagerApply(v, EventOf(s, ts[0])), ts[1..]);
    }
  }

  // What a user load sees in the two machines.
  lemma EveryReadAgrees(s: State, ts: seq<Step>, e: nat, p: nat, off: nat)
    requires Init(s) && IsRun(s, ts)
    requires Enabled(Exec(s, ts), Read(e, p, off))
    ensures IsEagerRun(Twin(s), Events(s, ts))
    ensures var v := EagerExec(Twin(s), Events(s, ts));
      var s' := Exec(s, ts);
      Loc(e, p) in v.home && v.home[Loc(e, p)] in v.data
      && s'.mem[s'.pt[Loc(e, p)].frame][off] == v.data[v.home[Loc(e, p)]][off]
  {
    InitAgrees(s);
    CowIsEager(s, Twin(s), ts);
    var s' := Exec(s, ts);
    RunningVisible(s', e, p);
    assert AgreeAt(s', EagerExec(Twin(s), Events(s, ts)), Loc(e, p));
  }

  // The key invariant: with no window open, a frame with a copy-on-write mapping has no writable one.
  lemma CowNeverWritable(s: State, ts: seq<Step>, a: Loc, b: Loc)
    requires Init(s) && IsRun(s, ts)
    requires var s' := Exec(s, ts);
      && a in s'.pt && b in s'.pt && s'.pt[a].frame == s'.pt[b].frame && s'.pt[a].cow
      && (forall e :: e in s'.fault ==> !s'.fault[e].Moved?)
      && (forall e :: e in s'.fork && s'.fork[e].Forking? ==> !s'.fork[e].win.ChildMapped?)
    ensures !Exec(s, ts).pt[b].w
  {
    InitAgrees(s);
    CowIsEager(s, Twin(s), ts);
    var s' := Exec(s, ts);
    assert PteOk(s', a) && PteOk(s', b);
    assert Clash(s', b, a) ==> Allowed(s', b, a);
  }

  // ------------------------------------------------------------------
  // One copy per duppage call
  // ------------------------------------------------------------------

  predicate Creates(ev: Event, dst: Loc) {
    (ev.CopyPage? || ev.SharePage?) && ev.dst == dst
  }

  // How many events of the run create dst.
  function Creations(s: State, ts: seq<Step>, dst: Loc): nat
    requires IsRun(s, ts)
    decreases |ts|
  {
    if ts == [] then 0
    else (if Creates(EventOf(s, ts[0]), dst) then 1 else 0) + Creations(Apply(s, ts[0]), ts[1..], dst)
  }

  predicate Settled(win: Window) {
    win.SelfMapped? || (win.ChildMapped? && win.copied)
  }

  predicate WindowOn(s: State, e: nat, c: nat, p: nat) {
    e in s.fork && s.fork[e].Forking? && s.fork[e].child == c
    && !s.fork[e].win.Between? && s.fork[e].win.p == p
  }

  lemma CreationStep(s: State, t: Step, e: nat, c: nat, p: nat)
    requires Inv(s) && Enabled(s, t) && WindowOn(s, e, c, p)
    requires t != DupEnd(e)
    ensures var s' := Apply(s, t);
      && WindowOn(s', e, c, p)
      && (if Settled(s'.fork[e].win) then 1 else 0) - (if Settled(s.fork[e].win) then 1 else 0)
         == (if Creates(EventOf(s, t), Loc(c, p)) then 1 else 0)
    ensures Creates(EventOf(s, t), Loc(c, p)) ==> EventOf(s, t).src == Loc(e, p)
  {
    assert ForkOk(s, e);
    assert t.e in s.fork && t.e != e && s.fork[t.e].Forking? ==> s.fork[t.e].child != c;
  }

  lemma {:induction false} CreationsInWindow(s: State, ts: seq<Step>, e: nat, c: nat, p: nat)
    requires Inv(s) && IsRun(s, ts) && WindowOn(s, e, c, p)
    requires DupEnd(e) !in ts
    ensures WindowOn(Exec(s, ts), e, c, p)
    ensures Creations(s, ts, Loc(c, p))
      == (if Settled(Exec(s, ts).fork[e].win) then 1 else 0) - (if Settled(s.fork[e].win) then 1 else 0)
    ensures Inv(Exec(s, ts))
    decreases |ts|
  {
    if ts != [] {
      InvStep(s, ts[0]);
      CreationStep(s, ts[0], e, c, p);
      CreationsInWindow(Apply(s, ts[0]), ts[1..], e, c, p);
    }
  }

  // Between the start and the return of duppage(c, p) the child's page is created exactly once,
  // whatever the other environments, and the parent's own fault handler, do in between.
  lemma OneCopyPerDuppage(s: State, e: nat, p: nat, ts: seq<Step>)
    requires Inv(s) && Enabled(s, DupStart(e, p))
    requires IsRun(Apply(s, DupStart(e, p)), ts) && DupEnd(e) !in ts
    requires Enabled(Exec(Apply(s, DupStart(e, p)), ts), DupEnd(e))
    ensures Creations(Apply(s, DupStart(e, p)), ts, Loc(s.fork[e].child, p)) == 1
  {
    var s1 := Apply(s, DupStart(e, p));
    InvStep(s, DupStart(e, p));
    CreationsInWindow(s1, ts, e, s.fork[e].child, p);
    assert ForkOk(Exec(s1, ts), e);
  }

  // ------------------------------------------------------------------
  // The code of lib/fork.c, run without interruption
  // ------------------------------------------------------------------

  class UserMemory {
    var pt: map<Loc, Pte>
    var mem: map<nat, Page>

    // page_alloc(0) does not clear the frame: it keeps its stale bytes.
    method SysPageAlloc(dst: Loc, perm: Pte, f: nat, stale: Page)
      modifies this
      ensures pt == old(pt)[dst := perm.(frame := f)]
      ensures mem == old(mem)[f := stale]
    {
      pt := pt[dst := perm.(frame := f)];
      mem := mem[f := stale];
    }

    method SysPageMap(src: Loc, dst: Loc, perm: Pte) returns (ok: bool)
      modifies this`pt
      ensures ok <==> src in old(pt) && (perm.w ==> old(pt)[src].w)
      ensures pt == if ok then old(pt)[dst := perm.(frame := old(pt)[src].frame)] else old(pt)
    {
      if src !in pt || (!pt[src].w && perm.w) {
        return false;
      }
      pt := pt[dst := perm.(frame := pt[src].frame)];
      return true;
    }

    method SysPageUnmap(va: Loc)
      modifies this`pt
      ensures pt == old(pt) - {va}
    {
      pt := pt - {va};
    }

    // The bytes of the page at src are copied to the page at dst, one at a time.
    method Memmove(dst: Loc, src: Loc)
      requires dst in pt && src in pt && pt[dst].frame in mem && pt[src].frame in mem
      requires pt[dst].frame != pt[src].frame
      modifies this`mem
      ensures mem == old(mem)[pt[dst].frame := old(mem)[pt[src].frame]]
    {
      var d, f := pt[dst].frame, pt[src].frame;
      for i := 0 to PGSIZE
        invariant d in mem && f in mem && mem[f] == old(mem)[f]
        invariant mem == old(mem)[d := mem[d]]
        invariant mem[d][..i] == old(mem)[f][..i]
      {
        mem := mem[d := mem[d][i := mem[f][i]]];
      }
      assert mem[d] == mem[d][..PGSIZE] == old(mem)[f][..PGSIZE] == old(mem)[f];
    }

    // After the handler the page is mapped writably to a frame of its own that holds its bytes.
    method Pgfault(e: nat, p: nat, f: nat, stale: Page)
      requires p != PFTEMP && Loc(e, p) in pt && pt[Loc(e, p)].frame in mem
      requires f != pt[Loc(e, p)].frame
      modifies this
      ensures pt == old(pt)[Loc(e, p) := Pte(f, true, false, false)] - {Loc(e, PFTEMP)}
      ensures mem == old(mem)[f := old(mem)[old(pt)[Loc(e, p)].frame]]
    {
      var addr, tmp, rw := Loc(e, p), Loc(e, PFTEMP), Pte(0, true, false, false);
      SysPageAlloc(tmp, rw, f, stale);
      Memmove(tmp, addr);
      var ok := SysPageMap(tmp, addr, rw);
      SysPageUnmap(tmp);
    }

    // The child sees the parent's frame, with the parent's bits if the page is shared or read-only; any other
    // page ends copy-on-write and not writable in both.
    method Duppage(e: nat, c: nat, p: nat)
      requires c != e && Loc(e, p) in pt
      modifies this`pt
      ensures var was := old(pt)[Loc(e, p)];
        pt == if was.share || (!was.w && !was.cow) then old(pt)[Loc(c, p) := was]
              else old(pt)[Loc(c, p) := Pte(was.frame, false, true, false)]
                          [Loc(e, p) := Pte(was.frame, false, true, false)]
    {
      var addr := Loc(e, p);
      var perm := pt[addr];
      if perm.share {
        var ok := SysPageMap(addr, Loc(c, p), perm);
      } else if perm.w || perm.cow {
        perm := perm.(cow := true, w := false);
        var ok := SysPageMap(addr, Loc(c, p), perm);
        ok := SysPageMap(addr, addr, perm);
      } else {
        var ok := SysPageMap(addr, Loc(c, p), perm);
      }
    }
  }

  // What pgfault does once entered.
  function HandlerSteps(e: nat, f: nat, stale: Page): seq<Step> {
    [FaultAlloc(e, f, stale)] + seq(PGSIZE, _ => FaultCopy(e)) + [FaultMove(e), FaultDone(e)]
  }

  lemma {:induction false} ExecAppend(s: State, a: seq<Step>, b: seq<Step>)
    requires IsRun(s, a) && IsRun(Exec(s, a), b)
    ensures IsRun(s, a + b) && Exec(s, a + b) == Exec(Exec(s, a), b)
    decreases |a|
  {
    if a == [] {
      assert a + b == b;
    } else {
      assert (a + b)[1..] == a[1..] + b;
      ExecAppend(Apply(s, a[0]), a[1..], b);
    }
  }

  // The copying loop needs no more than its two pages.
  predicate CopyOk(s: State, e: nat, p: nat, i: nat) {
    var tmp, src := Loc(e, PFTEMP), Loc(e, p);
    && Runs(s, e) && s.fault[e] == Copying(p, i) && i <= PGSIZE
    && tmp in s.pt && src in s.pt && s.pt[tmp].frame in s.mem && s.pt[src].frame in s.mem
    && s.pt[tmp].frame != s.pt[src].frame
    && s.mem[s.pt[tmp].frame][..i] == s.mem[s.pt[src].frame][..i]
  }

  function Copied(s: State, e: nat, p: nat): State
    requires Loc(e, PFTEMP) in s.pt && Loc(e, p) in s.pt && s.pt[Loc(e, p)].frame in s.mem
  {
    s.(mem := s.mem[s.pt[Loc(e, PFTEMP)].frame := s.mem[s.pt[Loc(e, p)].frame]],
       fault := s.fault[e := Copying(p, PGSIZE)])
  }

  lemma CopyByte(s: State, e: nat, p: nat, i: nat)
    requires CopyOk(s, e, p, i) && i < PGSIZE
    ensures Enabled(s, FaultCopy(e))
    ensures var s' := Apply(s, FaultCopy(e)); CopyOk(s', e, p, i + 1) && Copied(s', e, p) == Copied(s, e, p)
  {
    var s' := Apply(s, FaultCopy(e));
    var d, f := s.pt[Loc(e, PFTEMP)].frame, s.pt[Loc(e, p)].frame;
    assert s'.mem[d][..i + 1] == s.mem[d][..i] + [s.mem[f][i]] == s.mem[f][..i + 1];
    assert s'.mem[d := s.mem[f]] == s.mem[d := s.mem[f]];
    assert s'.fault[e := Copying(p, PGSIZE)] == s.fault[e := Copying(p, PGSIZE)];
  }

  lemma CopyDone(s: State, e: nat, p: nat)
    requires CopyOk(s, e, p, PGSIZE)
    ensures Copied(s, e, p) == s
  {
    var d, f := s.pt[Loc(e, PFTEMP)].frame, s.pt[Loc(e, p)].frame;
    assert s.mem[d] == s.mem[d][..PGSIZE] == s.mem[f][..PGSIZE] == s.mem[f];
    assert s.mem == s.mem[d := s.mem[f]];
    assert s.fault == s.fault[e := Copying(p, PGSIZE)];
  }

  lemma {:induction false} CopyRun(s: State, e: nat, p: nat, n: nat)
    requires n <= PGSIZE && CopyOk(s, e, p, PGSIZE - n)
    ensures var ts := seq(n, _ => FaultCopy(e)); IsRun(s, ts) && Exec(s, ts) == Copied(s, e, p)
    decreases n
  {
    hide CopyOk, Copied, Enabled, Apply;
    if n == 0 {
      CopyDone(s, e, p);
    } else {
      var ts := seq(n, _ => FaultCopy(e));
      CopyByte(s, e, p, PGSIZE - n);
      CopyRun(Apply(s, FaultCopy(e)), e, p, n - 1);
      assert ts[1..] == seq(n - 1, _ => FaultCopy(e));
    }
  }

  lemma Exec1(s: State, a: Step)
    requires Enabled(s, a)
    ensures IsRun(s, [a]) && Exec(s, [a]) == Apply(s, a)
  {
    assert [a][1..] == [];
    assert IsRun(Apply(s, a), []);
  }

  lemma Exec2(s: State, a: Step, b: Step)
    requires Enabled(s, a) && Enabled(Apply(s, a), b)
    ensures IsRun(s, [a, b]) && Exec(s, [a, b]) == Apply(Apply(s, a), b)
  {
    hide Enabled, Apply;
    Exec1(Apply(s, a), b);
    assert [a, b][1..] == [b];
  }

  // The whole handler: the page is mapped to a private writable copy of itself.
  function Handled(s: State, e: nat, p: nat, f: nat): State
    requires Loc(e, p) in s.pt && s.pt[Loc(e, p)].frame in s.mem
  {
    s.(pt := s.pt[Loc(e, p) := Pte(f, true, false, false)] - {Loc(e, PFTEMP)},
       mem := s.mem[f := s.mem[s.pt[Loc(e, p)].frame]],
       fault := s.fault[e := NoFault])
  }

  predicate Trapped(s: State, e: nat, p: nat, f: nat) {
    && Runs(s, e) && s.fault[e] == Entered(p) && p != PFTEMP
    && Loc(e, p) in s.pt && s.pt[Loc(e, p)].frame in s.mem && FreeFrame(s, f)
  }

  lemma HandlerHead(s: State, e: nat, p: nat, f: nat, stale: Page)
    requires Trapped(s, e, p, f)
    ensures Enabled(s, FaultAlloc(e, f, stale))
    ensures var s1 := Apply(s, FaultAlloc(e, f, stale));
      && CopyOk(s1, e, p, 0)
      && Copied(s1, e, p) == s.(pt := s.pt[Loc(e, PFTEMP) := Pte(f, true, false, false)],
                                mem := s.mem[f := s.mem[s.pt[Loc(e, p)].frame]],
                                fault := s.fault[e := Copying(p, PGSIZE)])
  {
    var s1 := Apply(s, FaultAlloc(e, f, stale));
    assert s.pt[Loc(e, p)].frame != f;
    assert s1.mem[f := s.mem[s.pt[Loc(e, p)].frame]] == s.mem[f := s.mem[s.pt[Loc(e, p)].frame]];
    assert s1.fault[e := Copying(p, PGSIZE)] == s.fault[e := Copying(p, PGSIZE)];
  }

  lemma HandlerTail(s: State, s3: State, e: nat, p: nat, f: nat)
    requires Trapped(s, e, p, f)
    requires s3 == s.(pt := s.pt[Loc(e, PFTEMP) := Pte(f, true, false, false)],
                      mem := s.mem[f := s.mem[s.pt[Loc(e, p)].frame]],
                      fault := s.fault[e := Copying(p, PGSIZE)])
    ensures Enabled(s3, FaultMove(e)) && Enabled(Apply(s3, FaultMove(e)), FaultDone(e))
    ensures Apply(Apply(s3, FaultMove(e)), FaultDone(e)) == Handled(s, e, p, f)
  {
    var s5 := Apply(Apply(s3, FaultMove(e)), FaultDone(e));
    assert s5.fault == s.fault[e := NoFault];
    assert s5.pt == s.pt[Loc(e, p) := Pte(f, true, false, false)] - {Loc(e, PFTEMP)};
  }

  lemma HandlerRun(s: State, e: nat, p: nat, f: nat, stale: Page)
    requires Trapped(s, e, p, f)
    ensures IsRun(s, HandlerSteps(e, f, stale)) && Exec(s, HandlerSteps(e, f, stale)) == Handled(s, e, p, f)
  {
    hide CopyOk, Enabled, Apply;
    var copy := seq(PGSIZE, _ => FaultCopy(e));
    HandlerHead(s, e, p, f, stale);
    Exec1(s, FaultAlloc(e, f, stale));
    var s1 := Apply(s, FaultAlloc(e, f, stale));
    CopyRun(s1, e, p, PGSIZE);
    ExecAppend(s, [FaultAlloc(e, f, stale)], copy);
    var s3 := Exec(s1, copy);
    HandlerTail(s, s3, e, p, f);
    Exec2(s3, FaultMove(e), FaultDone(e));
    ExecAppend(s, [FaultAlloc(e, f, stale)] + copy, [FaultMove(e), FaultDone(e)]);
  }

  // The method above computes what the machine's handler steps compute.
  lemma PgfaultIsRun(s: State, e: nat, p: nat, f: nat, stale: Page)
    requires Inv(s) && Enabled(s, FaultEnter(e, p)) && FreeFrame(s, f)
    ensures IsRun(s, [FaultEnter(e, p)] + HandlerSteps(e, f, stale))
    ensures s.pt[Loc(e, p)].frame in s.mem
    ensures Exec(s, [FaultEnter(e, p)] + HandlerSteps(e, f, stale))
      == s.(pt := s.pt[Loc(e, p) := Pte(f, true, false, false)] - {Loc(e, PFTEMP)},
            mem := s.mem[f := s.mem[s.pt[Loc(e, p)].frame]])
  {
    assert PteOk(s, Loc(e, p));
    var s1 := TakeFault(s, e, p);
    HandlerRun(s1, e, p, f, stale);
    Exec1(s, FaultEnter(e, p));
    ExecAppend(s, [FaultEnter(e, p)], HandlerSteps(e, f, stale));
    assert s1.fault[e := NoFault] == s.fault;
  }

  // ------------------------------------------------------------------
  // Where the guards on faults are exact
  // ------------------------------------------------------------------

  // The test at line 34 lets the handler run for any page.  Its result means the same as before exactly
  // when the page is not shared: a shared page silently turns into a private copy.
  lemma FaultGuardShare(s: State, v: Eager, e: nat, p: nat, f: nat)
    requires Inv(s) && Agree(s, v) && Plain(s, e) && p != PFTEMP && Loc(e, p) in s.pt && FreeFrame(s, f)
    ensures s.pt[Loc(e, p)].frame in s.mem
    ensures var s' := s.(pt := s.pt[Loc(e, p) := Pte(f, true, false, false)],
                         mem := s.mem[f := s.mem[s.pt[Loc(e, p)].frame]]);
      Agree(s', v) <==> !s.pt[Loc(e, p)].share
  {
    var here := Loc(e, p);
    assert PteOk(s, here);
    RunningVisible(s, e, p);
    assert AgreeAt(s, v, here);
    var s' := s.(pt := s.pt[here := Pte(f, true, false, false)], mem := s.mem[f := s.mem[s.pt[here].frame]]);
    forall l
      ensures Pending(s', l) <==> Pending(s, l)
    {
      assert forall parent :: Undecided(s', parent, l.env, l.vpn) <==> Undecided(s, parent, l.env, l.vpn);
    }
    if s.pt[here].share {
      assert v.home[here] == Common(s.pt[here].frame) && HomeOf(s', here) == Private(here);
      assert !AgreeAt(s', v, here);
    } else {
      forall l | l in v.home
        ensures AgreeAt(s', v, l)
      {
        assert AgreeAt(s, v, l);
      }
    }
  }

  // After a store of e's to page p the two machines hold different bytes at l.
  predicate Differs(s: State, v: Eager, e: nat, p: nat, off: nat, b: nat, l: Loc) {
    && Enabled(s, Write(e, p, off, b)) && EagerOk(v, Store(Loc(e, p), off, b))
    && var s', v' := Apply(s, Write(e, p, off, b)), EagerApply(v, Store(Loc(e, p), off, b));
      && l in s'.pt && s'.pt[l].frame in s'.mem && l in v'.home && v'.home[l] in v'.data
      && s'.mem[s'.pt[l].frame][off] != v'.data[v'.home[l]][off]
  }

  // The state after duppage has mapped a read-only private page and returned.
  lemma StaleMap(s: State, e: nat)
    requires Enabled(s, DupMapChild(e)) && !Needs2(s.fork[e].win.perm) && !s.fork[e].win.perm.share
    ensures Enabled(Apply(s, DupMapChild(e)), DupEnd(e))
    ensures var fk := s.fork[e];
      Apply(Apply(s, DupMapChild(e)), DupEnd(e))
      == s.(pt := s.pt[Loc(fk.child, fk.win.p) := fk.win.perm.(frame := s.pt[Loc(e, fk.win.p)].frame)],
            fork := s.fork[e := fk.(win := Between)])
  {
    var fk := s.fork[e];
    var s1 := Apply(s, DupMapChild(e));
    assert s1.fork[e := fk.(win := Between)] == s.fork[e := fk.(win := Between)];
  }

  lemma StaleAgrees(s: State, v: Eager, s2: State, e: nat, perm: Pte)
    requires Agree(s, v) && e in s.fork && s.fork[e].Forking? && s.fork[e].win.PermRead?
    requires var p, c := s.fork[e].win.p, s.fork[e].child;
      && p != PFTEMP && Visible(s, Loc(e, p)) && Loc(c, p) !in s.pt && !Pending(s, Loc(c, p)) && !perm.share
      && s2 == s.(pt := s.pt[Loc(c, p) := perm.(frame := s.pt[Loc(e, p)].frame)],
                  fork := s.fork[e := s.fork[e].(win := Between)])
    ensures var src, dst := Loc(e, s.fork[e].win.p), Loc(s.fork[e].child, s.fork[e].win.p);
      && src in v.home && v.home[src] in v.data && dst !in v.home
      && Agree(s2, EagerApply(v, CopyPage(src, dst)))
  {
    var src, dst := Loc(e, s.fork[e].win.p), Loc(s.fork[e].child, s.fork[e].win.p);
    assert AgreeAt(s, v, src);
    var v2 := EagerApply(v, CopyPage(src, dst));
    forall l
      ensures Pending(s2, l) <==> Pending(s, l)
    {
      assert forall parent :: Undecided(s2, parent, l.env, l.vpn) <==> Undecided(s, parent, l.env, l.vpn);
    }
    hide Pending;
    forall l | l in v2.home
      ensures AgreeAt(s2, v2, l)
    {
      assert l != dst ==> AgreeAt(s, v, l);
    }
  }

  // duppage maps the child with bits it read earlier.  When it has returned from a page whose bits were
  // read-only and private, both machines still agree; but a store by the parent then changes the byte
  // its child reads, which the eager child keeps, exactly when a fault made the page writable since.
  lemma FaultGuardStale(s: State, v: Eager, e: nat)
    requires Agree(s, v) && Enabled(s, DupMapChild(e)) && s.fork[e].child != e
    requires !Needs2(s.fork[e].win.perm) && !s.fork[e].win.perm.share
    requires var p, c := s.fork[e].win.p, s.fork[e].child;
      Visible(s, Loc(e, p)) && !s.pt[Loc(e, p)].share && Loc(c, p) !in s.pt && !Pending(s, Loc(c, p))
    ensures Enabled(Apply(s, DupMapChild(e)), DupEnd(e))
    ensures EagerOk(v, CopyPage(Loc(e, s.fork[e].win.p), Loc(s.fork[e].child, s.fork[e].win.p)))
    ensures var p, dst := s.fork[e].win.p, Loc(s.fork[e].child, s.fork[e].win.p);
      var s2, v2 := Apply(Apply(s, DupMapChild(e)), DupEnd(e)), EagerApply(v, CopyPage(Loc(e, p), dst));
      Agree(s2, v2) && (s.pt[Loc(e, p)].w <==> exists off, b :: Differs(s2, v2, e, p, off, b, dst))
  {
    var p, c := s.fork[e].win.p, s.fork[e].child;
    var src, dst := Loc(e, p), Loc(c, p);
    StaleMap(s, e);
    var s2 := Apply(Apply(s, DupMapChild(e)), DupEnd(e));
    StaleAgrees(s, v, s2, e, s.fork[e].win.perm);
    assert AgreeAt(s, v, src);
    var v2 := EagerApply(v, CopyPage(src, dst));
    if s.pt[src].w {
      assert Differs(s2, v2, e, p, 0, s.mem[s.pt[src].frame][0] + 1, dst);
    }
  }

  // fork has started and duppage holds the bits of page p.
  function ForkBegun(s: State, e: nat, c: nat, p: nat): State
    requires Loc(e, p) in s.pt
  {
    s.(fault := s.fault[c := NoFault], embryos := {c},
       fork := s.fork[e := Forking(c, {p}, PermRead(p, s.pt[Loc(e, p)]))][c := Idle])
  }

  lemma ForkBegins(s: State, e: nat, c: nat, p: nat)
    requires Plain(s, e) && s.fork[e] == Idle && c !in s.fault && p != PFTEMP && Loc(e, p) in s.pt && s.embryos == {}
    ensures IsRun(s, [ForkStart(e, c), DupStart(e, p)])
    ensures Exec(s, [ForkStart(e, c), DupStart(e, p)]) == ForkBegun(s, e, c, p)
  {
    var s1 := Apply(s, ForkStart(e, c));
    Exec2(s, ForkStart(e, c), DupStart(e, p));
    assert {} + {p} == {p} && {} + {c} == {c};
    assert s1.fork[e := Forking(c, {p}, PermRead(p, s.pt[Loc(e, p)]))] == ForkBegun(s, e, c, p).fork;
  }

  lemma ForkBegunAgrees(s: State, e: nat, c: nat, p: nat)
    requires Init(s) && Plain(s, e) && c !in s.fault && p != PFTEMP && Loc(e, p) in s.pt
    ensures Inv(ForkBegun(s, e, c, p)) && Agree(ForkBegun(s, e, c, p), Twin(s))
    ensures forall l :: !Pending(ForkBegun(s, e, c, p), l)
  {
    var s2 := ForkBegun(s, e, c, p);
    InitAgrees(s);
    ForkBegins(s, e, c, p);
    Quiets(s, Twin(s), ForkStart(e, c), DupStart(e, p));
  }

  lemma Quiets(s: State, v: Eager, a: Step, b: Step)
    requires Inv(s) && Agree(s, v) && Quiet(a) && Quiet(b) && IsRun(s, [a, b])
    ensures Inv(Exec(s, [a, b])) && Agree(Exec(s, [a, b]), v)
  {
    hide Inv, Agree, Apply;
    assert [a, b][1..] == [b] && [b][1..] == [];
    assert IsRun(Apply(s, a), [b]);
    InvStep(s, a);
    AgreeQuiet(s, v, a);
    InvStep(Apply(s, a), b);
    AgreeQuiet(Apply(s, a), v, b);
    Exec2(s, a, b);
  }

  // The handler on a private page, run outside the guard, changes nothing the eager machine knows.
  lemma HandlerAgrees(s: State, v: Eager, e: nat, p: nat, f: nat)
    requires Inv(s) && Agree(s, v) && Plain(s, e) && p != PFTEMP && Loc(e, p) in s.pt && FreeFrame(s, f)
    requires !s.pt[Loc(e, p)].share
    ensures s.pt[Loc(e, p)].frame in s.mem && Agree(Handled(TakeFault(s, e, p), e, p, f), v)
  {
    FaultGuardShare(s, v, e, p, f);
    assert FaultOk(s, e);
    var s1, pte := TakeFault(s, e, p), Pte(f, true, false, false);
    assert s1.fault[e := NoFault] == s.fault;
    assert s.pt[Loc(e, p) := pte] - {Loc(e, PFTEMP)} == s.pt[Loc(e, p) := pte];
  }

  // Such a state is reached: fork has started and duppage has read the bits of a read-only page when
  // the parent writes to it.
  lemma StaleFaultReached(s: State, e: nat, c: nat, p: nat, f: nat, stale: Page)
    requires Init(s) && Plain(s, e) && c !in s.fault && p != PFTEMP && Loc(e, p) in s.pt && FreeFrame(s, f)
    requires !s.pt[Loc(e, p)].w && !s.pt[Loc(e, p)].cow && !s.pt[Loc(e, p)].share
    ensures IsRun(s, [ForkStart(e, c), DupStart(e, p)])
    ensures var s2 := Exec(s, [ForkStart(e, c), DupStart(e, p)]);
      && FaultTaken(s2, e, p) && !FaultGuard(s2, e, p)
      && IsRun(TakeFault(s2, e, p), HandlerSteps(e, f, stale))
      && var s4 := Exec(TakeFault(s2, e, p), HandlerSteps(e, f, stale));
        && Enabled(s4, DupMapChild(e)) && Enabled(Apply(s4, DupMapChild(e)), DupEnd(e))
        && EagerOk(Twin(s), CopyPage(Loc(e, p), Loc(c, p)))
        && var s6, v6 := Apply(Apply(s4, DupMapChild(e)), DupEnd(e)), EagerApply(Twin(s), CopyPage(Loc(e, p), Loc(c, p)));
          Agree(s6, v6) && exists off, b :: Differs(s6, v6, e, p, off, b, Loc(c, p))
  {
    ForkBegins(s, e, c, p);
    ForkBegunAgrees(s, e, c, p);
    var s2 := ForkBegun(s, e, c, p);
    hide Inv, Agree, IsRun, Exec, HandlerSteps, Differs;
    HandlerAgrees(s2, Twin(s), e, p, f);
    HandlerRun(TakeFault(s2, e, p), e, p, f, stale);
    StaleChild(s, e, c, p, f);
  }

  lemma StaleChild(s: State, e: nat, c: nat, p: nat, f: nat)
    requires Init(s) && Plain(s, e) && c !in s.fault && p != PFTEMP && Loc(e, p) in s.pt && FreeFrame(s, f)
    requires !s.pt[Loc(e, p)].w && !s.pt[Loc(e, p)].cow && !s.pt[Loc(e, p)].share
    requires s.pt[Loc(e, p)].frame in s.mem && Agree(Handled(TakeFault(ForkBegun(s, e, c, p), e, p), e, p, f), Twin(s))
    ensures var s4 := Handled(TakeFault(ForkBegun(s, e, c, p), e, p), e, p, f);
        && Enabled(s4, DupMapChild(e)) && Enabled(Apply(s4, DupMapChild(e)), DupEnd(e))
        && EagerOk(Twin(s), CopyPage(Loc(e, p), Loc(c, p)))
        && var s6, v6 := Apply(Apply(s4, DupMapChild(e)), DupEnd(e)), EagerApply(Twin(s), CopyPage(Loc(e, p), Loc(c, p)));
          Agree(s6, v6) && exists off, b :: Differs(s6, v6, e, p, off, b, Loc(c, p))
  {
    var s4 := Handled(TakeFault(ForkBegun(s, e, c, p), e, p), e, p, f);
    assert Loc(c, p) in s.pt ==> PteOk(s, Loc(c, p));
    assert forall l :: !Pending(s4, l);
    hide Agree, Differs, Apply, Init, Pending;
    FaultGuardStale(s4, Twin(s), e);
  }

  // The other family: a store to a shared page after a fault on it no longer reaches the page's other
  // mappings.
  lemma SharedFaultSplits(s: State, v: Eager, e: nat, p: nat, f: nat, l: Loc)
    requires Inv(s) && Agree(s, v) && Plain(s, e) && p != PFTEMP && Loc(e, p) in s.pt && FreeFrame(s, f)
    requires s.pt[Loc(e, p)].share && l != Loc(e, p) && Visible(s, l) && s.pt[l].frame == s.pt[Loc(e, p)].frame
    ensures s.pt[Loc(e, p)].frame in s.mem
    ensures exists off, b :: Differs(Handled(s, e, p, f), v, e, p, off, b, l)
  {
    var here := Loc(e, p);
    assert PteOk(s, here) && FaultOk(s, e);
    RunningVisible(s, e, p);
    assert AgreeAt(s, v, here) && AgreeAt(s, v, l);
    assert s.pt[l].share;
    var b := s.mem[s.pt[here].frame][0] + 1;
    assert Differs(Handled(s, e, p, f), v, e, p, 0, b, l);
  }

  // Two environments with a read-only shared page: from this first state the test at line 34 lets the
  // handler run.
  function SharedPair(pg: Page): State {
    var pte := Pte(0, false, false, true);
    State(map[Loc(0, 0) := pte, Loc(1, 0) := pte], map[0 := pg], map[0 := NoFault, 1 := NoFault],
          map[0 := Idle, 1 := Idle], {})
  }

  lemma SharedPairInit(pg: Page)
    ensures Init(SharedPair(pg)) && Visible(SharedPair(pg), Loc(1, 0))
  {
    assert forall l :: !Pending(SharedPair(pg), l);
  }

  lemma SharedFaultReached(pg: Page, stale: Page)
    ensures var s := SharedPair(pg);
      && Init(s) && FaultTaken(s, 0, 0)
      && IsRun(TakeFault(s, 0, 0), HandlerSteps(0, 1, stale))
      && var s' := Exec(TakeFault(s, 0, 0), HandlerSteps(0, 1, stale));
        exists off, b :: Differs(s', Twin(s), 0, 0, off, b, Loc(1, 0))
  {
    var s := SharedPair(pg);
    SharedPairInit(pg);
    InitAgrees(s);
    assert TakeFault(s, 0, 0).fault[0 := NoFault] == s.fault[0 := NoFault];
    assert FreeFrame(s, 1) && Trapped(TakeFault(s, 0, 0), 0, 0, 1);
    hide Init, Inv, Agree, IsRun, Exec, HandlerSteps, Differs, Visible, FreeFrame, Twin;
    HandlerRun(TakeFault(s, 0, 0), 0, 0, 1, stale);
    SharedFaultSplits(s, Twin(s), 0, 0, 1, Loc(1, 0));
  }
}
