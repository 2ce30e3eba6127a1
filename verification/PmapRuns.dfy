// Whole runs of the physical page allocator and the page-table calls of kern/pmap.c.
module PmapRuns {
  import opened Wrappers
  import opened PageTable
  import opened PageWalk
  import opened Pmap

  datatype Op =
    | Alloc(zero: bool)                                             // page_alloc
    | Release(frame: nat)                                           // page_free of a page nobody maps
    | Walk(root: nat, vpn: nat, create: bool)                       // pml4e_walk
    | Lookup(root: nat, vpn: nat)                                   // page_lookup
    | Insert(root: nat, frame: nat, vpn: nat, perm: nat)            // page_insert
    | Remove(root: nat, vpn: nat)                                   // page_remove

  // What the callers guarantee: a real root, an address of 48 bits, a page that was allocated, twelve
  // permission bits and fewer than 65536 references.
  ghost predicate Allowed(s: Snap, op: Op) {
    Wf(s) &&
    match op
    case Alloc(_) => true
    case Release(f) => f < |s.mem| && s.kinds[f] == Data && s.pages[f].ref == 0
    case Walk(r, v, _) => IsRoot(s, r) && v < NVPN
    case Lookup(r, v) => IsRoot(s, r) && v < NVPN
    case Insert(r, f, v, p) => IsRoot(s, r) && v < NVPN && Insertable(s, f, p)
    case Remove(r, v) => IsRoot(s, r) && v < NVPN
  }

  ghost function Exec(s: Snap, op: Op): (s': Snap)
    requires Allowed(s, op)
    ensures Wf(s')
  {
    match op
    case Alloc(z) => PageAlloc(s, z).0
    case Release(f) => PageFree(s, f)
    case Walk(r, v, c) => Pml4eWalk(s, r, v, c).s
    case Lookup(r, v) => PageLookup(s, r, v).s
    case Insert(r, f, v, p) => PageInsert(s, r, f, v, p).0
    case Remove(r, v) => PageRemove(s, r, v)
  }

  ghost predicate IsRun(s: Snap, ops: seq<Op>)
    decreases |ops|
  {
    ops == [] || (Allowed(s, ops[0]) && IsRun(Exec(s, ops[0]), ops[1..]))
  }

  ghost function Run(s: Snap, ops: seq<Op>): Snap
    requires IsRun(s, ops)
    decreases |ops|
  {
    if ops == [] then s else Run(Exec(s, ops[0]), ops[1..])
  }

  // ------------------------------------------------------------------
  // The map the page tables stand for
  // ------------------------------------------------------------------

  type Mapping = map<(nat, nat), Entry>

  ghost function Apply(m: Mapping, s: Snap, op: Op): Mapping
    requires Allowed(s, op)
  {
    match op
    case Insert(r, f, v, p) =>
      if PageInsert(s, r, f, v, p).1 then m[(r, v) := Entry(f, WithP(p))] else m
    case Remove(r, v) => m - {(r, v)}
    case _ => m
  }

  ghost function ApplyAll(m: Mapping, s: Snap, ops: seq<Op>): Mapping
    requires IsRun(s, ops)
    decreases |ops|
  {
    if ops == [] then m else ApplyAll(Apply(m, s, ops[0]), Exec(s, ops[0]), ops[1..])
  }

  ghost predicate Refines(s: Snap, m: Mapping)
    requires Wf(s)
  {
    forall r: nat, v: nat :: IsRoot(s, r) && v < NVPN ==>
      View(s, r, v) == if (r, v) in m then Some(m[(r, v)]) else None
  }

  lemma StepInv(s: Snap, op: Op)
    requires Inv(s) && Allowed(s, op)
    ensures Inv(Exec(s, op))
    ensures op.Alloc? || op.Release? || op.Walk? || op.Lookup? ==> SameViews(s, Exec(s, op))
  {
    match op
    case Alloc(z) => ListHead(s); if s.chain != [] { PopInv(s, z); }
    case Release(f) => PushInv(s, f);
    case Walk(r, v, c) => Pml4eWalkOk(s, r, v, c);
    case Lookup(r, v) => LookupSpec(s, r, v);
    case Insert(r, f, v, p) => InsertSpec(s, r, f, v, p);
    case Remove(r, v) => RemoveSpec(s, r, v);
  }

  lemma StepRefines(s: Snap, m: Mapping, op: Op)
    requires Inv(s) && Allowed(s, op) && Refines(s, m)
    ensures Refines(Exec(s, op), Apply(m, s, op))
  {
    StepInv(s, op);
    match op
    case Insert(r, f, v, p) => InsertSpec(s, r, f, v, p);
    case Remove(r, v) => RemoveSpec(s, r, v);
    case _ =>
  }

  // Whatever is allocated, walked, inserted and removed, with or without memory to spare, the tables
  // stand for the map those calls describe, and the kernel never panics.
  lemma {:induction false} RunRefinesMap(s: Snap, m: Mapping, ops: seq<Op>)
    requires Inv(s) && Refines(s, m) && IsRun(s, ops)
    ensures Inv(Run(s, ops)) && Refines(Run(s, ops), ApplyAll(m, s, ops))
    decreases |ops|
  {
    if ops != [] {
      StepInv(s, ops[0]);
      StepRefines(s, m, ops[0]);
      RunRefinesMap(Exec(s, ops[0]), Apply(m, s, ops[0]), ops[1..]);
    }
  }

  // So page_lookup answers from that map.
  lemma LookupAgrees(s: Snap, m: Mapping, ops: seq<Op>, root: nat, vpn: nat)
    requires Inv(s) && Refines(s, m) && IsRun(s, ops) && IsRoot(Run(s, ops), root) && vpn < NVPN
    ensures var to := ApplyAll(m, s, ops);
      PageLookup(Run(s, ops), root, vpn).page == if (root, vpn) in to then Some(to[(root, vpn)].frame) else None
  {
    RunRefinesMap(s, m, ops);
    LookupSpec(Run(s, ops), root, vpn);
  }

  // A page mapped anywhere is not on the free list, and the list has no cycle and no duplicate.
  lemma NeverFreeWhileMapped(s: Snap, m: Mapping, ops: seq<Op>, root: nat, vpn: nat)
    requires Inv(s) && Refines(s, m) && IsRun(s, ops) && IsRoot(Run(s, ops), root) && vpn < NVPN
    requires (root, vpn) in ApplyAll(m, s, ops)
    ensures var s', f := Run(s, ops), ApplyAll(m, s, ops)[(root, vpn)].frame;
      && Inv(s') && f !in s'.chain && f < |s'.pages| && 1 <= s'.pages[f].ref == Count(s', f)
      && (forall i, j :: 0 <= i < j < |s'.chain| ==> s'.chain[i] != s'.chain[j])
  {
    RunRefinesMap(s, m, ops);
    var s' := Run(s, ops);
    MappedIsLive(s', root, vpn);
    assert RefOk(s', View(s', root, vpn).value.frame);
  }

  // ------------------------------------------------------------------
  // Leaks
  // ------------------------------------------------------------------

  // pp_ref counts exactly the entries (and, for a root, the environment that owns it).
  ghost predicate ExactRefs(s: Snap)
    requires Wf(s)
  {
    forall f :: 0 <= f < |s.mem| ==> s.pages[f].ref == Count(s, f) + (if s.kinds[f].Root? then 1 else 0)
  }

  ghost predicate NoLost(s: Snap)
    requires Wf(s)
  {
    forall f :: 0 <= f < |s.mem| ==> !s.kinds[f].Lost?
  }

  lemma ExactIffNoLost(s: Snap)
    requires Inv(s)
    ensures ExactRefs(s) <==> NoLost(s)
    ensures forall f :: 0 <= f < |s.mem| ==> s.pages[f].ref >= Count(s, f)
  {
    forall f | 0 <= f < |s.mem|
      ensures s.pages[f].ref == Count(s, f) + (if s.kinds[f].Root? || s.kinds[f].Lost? then 1 else 0)
    {
      assert RefOk(s, f);
    }
  }

  // The call walks, creating, from an absent top entry, with two free frames left.
  ghost predicate Leaking(s: Snap, op: Op)
    requires Allowed(s, op)
  {
    match op
    case Walk(r, v, c) => c && s.mem[r][Pml4(v)] == ZERO && |s.chain| == 2
    case Lookup(r, v) => s.mem[r][Pml4(v)] == ZERO && |s.chain| == 2
    case Insert(r, _, v, _) => s.mem[r][Pml4(v)] == ZERO && |s.chain| == 2
    case Remove(r, v) => s.mem[r][Pml4(v)] == ZERO && |s.chain| == 2
    case _ => false
  }

  lemma LookupLost(s: Snap, root: nat, vpn: nat)
    requires Inv(s) && IsRoot(s, root) && vpn < NVPN
    ensures var s' := PageLookup(s, root, vpn).s;
      && s' == Pml4eWalk(s, root, vpn, true).s && LostStays(s, s')
      && (!NothingLost(s, s') <==> s.mem[root][Pml4(vpn)] == ZERO && |s.chain| == 2)
  {
    Pml4eWalkOk(s, root, vpn, true);
    Pml4eWalkData(s, root, vpn, true);
  }

  lemma RemoveLost(s: Snap, root: nat, vpn: nat)
    requires Inv(s) && IsRoot(s, root) && vpn < NVPN
    ensures var s' := PageRemove(s, root, vpn);
      LostStays(s, s') && (!NothingLost(s, s') <==> s.mem[root][Pml4(vpn)] == ZERO && |s.chain| == 2)
  {
    if View(s, root, vpn).Some? {
      RemoveIs(s, root, vpn);
      MappedIsLive(s, root, vpn);
    } else {
      LookupSpec(s, root, vpn);
      LookupLost(s, root, vpn);
    }
  }

  lemma InsertLost(s: Snap, root: nat, frame: nat, vpn: nat, perm: nat)
    requires Inv(s) && IsRoot(s, root) && vpn < NVPN && Insertable(s, frame, perm)
    ensures var s' := PageInsert(s, root, frame, vpn, perm).0;
      LostStays(s, s') && (!NothingLost(s, s') <==> s.mem[root][Pml4(vpn)] == ZERO && |s.chain| == 2)
  {
    Pml4eWalkOk(s, root, vpn, true);
    Pml4eWalkData(s, root, vpn, true);
    if |s.chain| >= Missing(s, root, vpn) {
      WalkReaches(s, root, vpn);
      var w := Pml4eWalk(s, root, vpn, true);
      RemoveLost(w.s, root, vpn);
      LeafTableOk(w.s, root, vpn);
    }
  }

  lemma StepLost(s: Snap, op: Op)
    requires Inv(s) && Allowed(s, op)
    ensures LostStays(s, Exec(s, op)) && |Exec(s, op).mem| == |s.mem|
    ensures !NothingLost(s, Exec(s, op)) <==> Leaking(s, op)
  {
    match op
    case Alloc(z) => ListHead(s); if s.chain != [] { PopLists(s, z); }
    case Release(f) => PushInv(s, f);
    case Walk(r, v, c) => Pml4eWalkOk(s, r, v, c); Pml4eWalkData(s, r, v, c);
    case Lookup(r, v) => LookupLost(s, r, v);
    case Insert(r, f, v, p) => InsertLost(s, r, f, v, p);
    case Remove(r, v) => RemoveLost(s, r, v);
  }

  ghost predicate LeakFree(s: Snap, ops: seq<Op>)
    requires IsRun(s, ops)
    decreases |ops|
  {
    ops == [] || (!Leaking(s, ops[0]) && LeakFree(Exec(s, ops[0]), ops[1..]))
  }

  lemma {:induction false} LostForever(s: Snap, ops: seq<Op>)
    requires Inv(s) && IsRun(s, ops) && !NoLost(s)
    ensures Wf(Run(s, ops)) && !NoLost(Run(s, ops))
    decreases |ops|
  {
    if ops != [] {
      StepInv(s, ops[0]);
      StepLost(s, ops[0]);
      LostForever(Exec(s, ops[0]), ops[1..]);
    }
  }

  // Reference counts stay exact over a run if and only if no call of it walked with an absent top entry
  // and exactly two free frames.
  lemma {:induction false} ExactIffLeakFree(s: Snap, ops: seq<Op>)
    requires Inv(s) && IsRun(s, ops) && ExactRefs(s)
    ensures Inv(Run(s, ops)) && (ExactRefs(Run(s, ops)) <==> LeakFree(s, ops))
    decreases |ops|
  {
    if ops != [] {
      var s1 := Exec(s, ops[0]);
      StepInv(s, ops[0]);
      StepLost(s, ops[0]);
      ExactIffNoLost(s);
      ExactIffNoLost(s1);
      RunRefinesAny(s1, ops[1..]);
      ExactIffNoLost(Run(s1, ops[1..]));
      if Leaking(s, ops[0]) {
        LostForever(s1, ops[1..]);
      } else {
        ExactIffLeakFree(s1, ops[1..]);
      }
    }
  }

  lemma {:induction false} RunRefinesAny(s: Snap, ops: seq<Op>)
    requires Inv(s) && IsRun(s, ops)
    ensures Inv(Run(s, ops))
    decreases |ops|
  {
    if ops != [] {
      StepInv(s, ops[0]);
      RunRefinesAny(Exec(s, ops[0]), ops[1..]);
    }
  }

  // ------------------------------------------------------------------
  // Start
  // ------------------------------------------------------------------

  // Frames below roots are empty top-level tables, each held by its environment; the rest are free.
  function Boot(roots: nat, n: nat): (s: Snap)
    requires roots < n
    ensures Wf(s)
  {
    Snap(seq(n, f => if f < roots then PageInfo(None, 1) else PageInfo(if f + 1 < n then Some(f + 1) else None, 0)),
         Some(roots),
         seq(n, f => Zeros()),
         false,
         seq(n, f => if f < roots then Root else Free),
         seq(n - roots, i => i + roots))
  }

  lemma BootInv(roots: nat, n: nat)
    requires roots < n
    ensures Inv(Boot(roots, n)) && ExactRefs(Boot(roots, n)) && Refines(Boot(roots, n), map[])
  {
    var s := Boot(roots, n);
    forall f: nat | f < n ensures Count(s, f) == 0 {
      BootCount(s, n, f);
    }
    forall f: nat | f < n ensures s.kinds[f].Free? <==> f in s.chain {
      if f >= roots {
        assert s.chain[f - roots] == f;
      }
    }
    forall f | 0 <= f < n ensures RefOk(s, f) {
    }
  }

  lemma {:induction false} BootCount(s: Snap, n: nat, f: nat)
    requires Wf(s) && n <= |s.mem| && forall t :: 0 <= t < |s.mem| ==> s.mem[t] == Zeros()
    ensures CountUpTo(s, n, f) == 0
  {
    if n > 0 {
      BootCount(s, n - 1, f);
      CountInZero(Zeros(), f);
    }
  }
}
