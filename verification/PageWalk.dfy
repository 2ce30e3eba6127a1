// The walks of kern/pmap.c: pml4e_walk, pdpe_walk, pgdir_walk, with everything they allocate, give back
// or leak when memory runs out.
module PageWalk {
  import opened Wrappers
  import opened PageTable

  datatype Loc = Loc(table: nat, slot: nat)
  datatype Walked = Walked(s: Snap, pte: Option<Loc>)

  // page_alloc(ALLOC_ZERO), pp_ref++, and the entry that names the new page.
  function Fill(s: Snap, t: nat, i: nat): (r: (Snap, Option<nat>))
    requires Wf(s) && t < |s.mem| && i < NPTENTRIES
    ensures Wf(r.0) && |r.0.mem| == |s.mem|
    ensures r.1.Some? ==> r.1.value < |s.mem|
  {
    var a := PageAlloc(s, true);
    if a.1.None? then (a.0, None) else (Link(a.0, t, i, a.1.value), a.1)
  }

  // The table named by entry (t, i), created on demand.
  function Step(s: Snap, t: nat, i: nat, create: bool): (r: (Snap, Option<nat>))
    requires Wf(s) && t < |s.mem| && i < NPTENTRIES
    ensures Wf(r.0) && |r.0.mem| == |s.mem|
    ensures r.1.Some? ==> r.1.value < |s.mem|
  {
    if s.mem[t][i] == ZERO then
      if create then Fill(s, t, i) else (s, None)
    else if s.mem[t][i].frame < |s.mem| then (s, Some(s.mem[t][i].frame))
    else (s.(halted := true), None)      // KADDR panics
  }

  function PgdirWalk(s: Snap, pgdir: nat, vpn: nat, create: bool): (r: Walked)
    requires Wf(s) && pgdir < |s.mem|
    ensures Wf(r.s) && |r.s.mem| == |s.mem|
  {
    var a := Step(s, pgdir, Pdx(vpn), create);
    Walked(a.0, if a.1.None? then None else Some(Loc(a.1.value, Ptx(vpn))))
  }

  // The inner declaration of page at line 637 hides the outer one, so the clean-up after a failed
  // pgdir_walk never runs.
  function PdpeWalk(s: Snap, pdpe: nat, vpn: nat, create: bool): (r: Walked)
    requires Wf(s) && pdpe < |s.mem|
    ensures Wf(r.s) && |r.s.mem| == |s.mem|
  {
    var a := Step(s, pdpe, Pdpe(vpn), create);
    if a.1.None? then Walked(a.0, None) else PgdirWalk(a.0, a.1.value, vpn, create)
  }

  // page_decref of the new page-directory-pointer table, then its entry is cleared.  A page directory it
  // had received meanwhile is named by no table any more.
  function Drop(s: Snap, root: nat, i: nat, p: nat, j: nat): (s': Snap)
    requires Wf(s) && root < |s.mem| && i < NPTENTRIES && p < |s.mem| && j < NPTENTRIES
    ensures Wf(s') && |s'.mem| == |s.mem|
  {
    var d := s.mem[p][j];
    var s1 := SetEntry(PageDecref(s, p), root, i, ZERO);
    if d != ZERO && d.frame < |s.mem| then SetKind(s1, d.frame, Lost) else s1
  }

  function Pml4eWalk(s: Snap, root: nat, vpn: nat, create: bool): (r: Walked)
    requires Wf(s) && root < |s.mem|
    ensures Wf(r.s) && |r.s.mem| == |s.mem|
  {
    var a := Step(s, root, Pml4(vpn), create);
    if a.1.None? then Walked(a.0, None)
    else
      var w := PdpeWalk(a.0, a.1.value, vpn, create);
      if w.pte.None? && s.mem[root][Pml4(vpn)] == ZERO then
        Walked(Drop(w.s, root, Pml4(vpn), a.1.value, Pdpe(vpn)), None)
      else w
  }

  // Tables missing on the way to vpn.
  function Missing2(s: Snap, pgdir: nat, vpn: nat): nat
    requires Wf(s) && pgdir < |s.mem|
  {
    if s.mem[pgdir][Pdx(vpn)] == ZERO then 1 else 0
  }

  function Missing3(s: Snap, pdpe: nat, vpn: nat): nat
    requires Wf(s) && pdpe < |s.mem|
  {
    var e := s.mem[pdpe][Pdpe(vpn)];
    if e == ZERO || e.frame >= |s.mem| then 2 else Missing2(s, e.frame, vpn)
  }

  function Missing(s: Snap, root: nat, vpn: nat): nat
    requires Wf(s) && root < |s.mem|
  {
    var e := s.mem[root][Pml4(vpn)];
    if e == ZERO || e.frame >= |s.mem| then 3 else Missing3(s, e.frame, vpn)
  }

  lemma SameViewsTrans(a: Snap, b: Snap, c: Snap)
    requires Wf(a) && Wf(b) && Wf(c) && SameViews(a, b) && SameViews(b, c)
    ensures SameViews(a, c)
  {
  }

  // Tables above level l keep their entries; every table keeps its place; nothing new is lost.
  ghost predicate Above(s: Snap, s': Snap, l: nat)
    requires Wf(s) && Wf(s')
  {
    && |s'.mem| == |s.mem|
    && (forall x :: 0 <= x < |s.mem| && Level(s.kinds[x]) > l ==> s'.mem[x] == s.mem[x])
    && (forall x :: 0 <= x < |s.mem| && IsTable(s.kinds[x]) ==> s'.kinds[x] == s.kinds[x])
    && (forall x :: 0 <= x < |s.mem| ==> s'.kinds[x].Lost? == s.kinds[x].Lost?)
  }

  // The list is not empty exactly when a frame can be had.
  lemma ListHead(s: Snap)
    requires Inv(s)
    ensures s.free.Some? <==> s.chain != []
    ensures s.free.Some? ==> s.free.value < |s.pages| && s.free.value == s.chain[0]
  {
  }

  lemma FillOk(s: Snap, t: nat, i: nat)
    requires Inv(s) && t < |s.mem| && i < NPTENTRIES && Level(s.kinds[t]) >= 2 && s.mem[t][i] == ZERO
    ensures var r := Fill(s, t, i);
      && Inv(r.0) && SameViews(s, r.0)
      && (r.1.None? <==> s.chain == [])
      && (r.1.None? ==> r.0 == s)
      && (r.1.Some? ==>
            && r.1.value == s.chain[0] && s.kinds[r.1.value].Free?
            && r.0.chain == s.chain[1..]
            && r.0.kinds == s.kinds[r.1.value := Table(Level(s.kinds[t]) - 1, t, i)]
            && r.0.mem == s.mem[r.1.value := Zeros()][t := s.mem[t][i := Entry(r.1.value, TABLEPERM)]]
            && r.0.pages[r.1.value].ref == 1)
  {
    ListHead(s);
    if s.chain != [] {
      var f := s.free.value;
      PopInv(s, true);
      PopLists(s, true);
      var a := Pop(s, f, true);
      LinkInv(a, t, i, f);
      LinkViews(a, t, i, f);
      SameViewsTrans(s, a, Link(a, t, i, f));
    }
  }

  lemma FillAbove(s: Snap, t: nat, i: nat)
    requires Inv(s) && t < |s.mem| && i < NPTENTRIES && Level(s.kinds[t]) >= 2 && s.mem[t][i] == ZERO
    ensures Above(s, Fill(s, t, i).0, Level(s.kinds[t]))
  {
    FillOk(s, t, i);
  }

  lemma PgdirWalkOk(s: Snap, pgdir: nat, vpn: nat, create: bool)
    requires Inv(s) && pgdir < |s.mem| && Level(s.kinds[pgdir]) == 2
    ensures var w := PgdirWalk(s, pgdir, vpn, create);
      && Inv(w.s) && SameViews(s, w.s) && Above(s, w.s, 2)
      && (w.pte.None? <==> (if create then |s.chain| < Missing2(s, pgdir, vpn) else Missing2(s, pgdir, vpn) > 0))
      && (w.pte.None? ==> w.s == s)
      && (w.pte.Some? ==>
            w.pte.value.slot == Ptx(vpn) && Down(w.s, pgdir, Pdx(vpn)) == Some(w.pte.value.table)
            && |w.s.chain| == |s.chain| - Missing2(s, pgdir, vpn))
  {
    assert EntryOk(s, pgdir, Pdx(vpn));
    if s.mem[pgdir][Pdx(vpn)] == ZERO && create {
      FillOk(s, pgdir, Pdx(vpn));
      FillAbove(s, pgdir, Pdx(vpn));
    }
  }

  lemma EntryHolds(s: Snap, t: nat, i: nat)
    requires Inv(s) && t < |s.mem| && i < NPTENTRIES
    ensures EntryOk(s, t, i)
  {
  }

  lemma PdpeWalkOk(s: Snap, pdpe: nat, vpn: nat, create: bool)
    requires Inv(s) && pdpe < |s.mem| && Level(s.kinds[pdpe]) == 3
    ensures var w := PdpeWalk(s, pdpe, vpn, create);
      && Inv(w.s) && SameViews(s, w.s) && Above(s, w.s, 3)
      && (w.pte.None? <==> (if create then |s.chain| < Missing3(s, pdpe, vpn) else Missing3(s, pdpe, vpn) > 0))
      && (w.pte.None? ==>
            w.s == if create && Missing3(s, pdpe, vpn) == 2 then Fill(s, pdpe, Pdpe(vpn)).0 else s)
      && (w.pte.Some? ==>
            w.pte.value.slot == Ptx(vpn)
            && DownFrom(w.s, Down(w.s, pdpe, Pdpe(vpn)), Pdx(vpn)) == Some(w.pte.value.table)
            && |w.s.chain| == |s.chain| - Missing3(s, pdpe, vpn))
  {
    hide FreeOk, RefsOk, TreeOk, View, Fill, PgdirWalk;
    EntryHolds(s, pdpe, Pdpe(vpn));
    var a := Step(s, pdpe, Pdpe(vpn), create);
    if s.mem[pdpe][Pdpe(vpn)] == ZERO && create {
      FillOk(s, pdpe, Pdpe(vpn));
      FillAbove(s, pdpe, Pdpe(vpn));
    }
    if a.1.Some? {
      assert Inv(a.0) && Level(a.0.kinds[a.1.value]) == 2 && SameViews(s, a.0);
      PgdirWalkOk(a.0, a.1.value, vpn, create);
      SameViewsTrans(s, a.0, PgdirWalk(a.0, a.1.value, vpn, create).s);
    }
  }

  // ---------------- the clean-up

  // A fresh page-directory-pointer table p under (root, i): empty but for slot j, which may name a fresh
  // page directory.
  predicate Fresh(s: Snap, root: nat, i: nat, p: nat, j: nat)
    requires Wf(s)
  {
    && IsRoot(s, root) && i < NPTENTRIES && p < |s.mem| && j < NPTENTRIES
    && s.mem[root][i] == Entry(p, TABLEPERM) && s.kinds[p] == Table(3, root, i) && s.pages[p].ref == 1
    && var d := s.mem[p][j];
       s.mem[p] == Zeros()[j := d]
       && (d != ZERO ==>
             d.frame < |s.mem| && s.kinds[d.frame] == Table(2, p, j)
             && s.mem[d.frame] == Zeros() && s.pages[d.frame].ref == 1)
  }

  lemma DropLists(s: Snap, root: nat, i: nat, p: nat, j: nat)
    requires Inv(s) && Fresh(s, root, i, p, j)
    ensures FreeOk(Drop(s, root, i, p, j)) && !Drop(s, root, i, p, j).halted
    ensures Drop(s, root, i, p, j).chain == [p] + s.chain
  {
    hide TreeOk, RefsOk;
    var s' := Drop(s, root, i, p, j);
    assert s'.chain[0] == p;
    forall g | 0 <= g < |s.pages| ensures s'.kinds[g].Free? <==> g in s'.chain {
      if g in s.chain {
        var x :| 0 <= x < |s.chain| && s.chain[x] == g;
        assert s'.chain[x + 1] == g;
      }
    }
    forall x | 0 <= x < |s'.chain| ensures LinkOk(s', x) {
      if x > 0 {
        assert LinkOk(s, x - 1);
        assert s'.chain[x] == s.chain[x - 1] && s.chain[x - 1] in s.chain;
      }
    }
  }

  lemma DropCounts(s: Snap, root: nat, i: nat, p: nat, j: nat, g: nat)
    requires Inv(s) && Fresh(s, root, i, p, j) && g < |s.mem|
    ensures Count(Drop(s, root, i, p, j), g) == Count(s, g) - (if g == p then 1 else 0) - Names(s.mem[p][j], g)
  {
    var s', d := Drop(s, root, i, p, j), s.mem[p][j];
    var a := SetEntry(s, root, i, ZERO);
    CountAfterStore(s, a, root, i, ZERO, g);
    CountInZero(Zeros(), g);
    CountInUpdate(Zeros(), j, d, g);
    forall x | 0 <= x < |s.mem| && x != p ensures Contribution(s', x, g) == Contribution(a, x, g) {
      if x != root {
        assert s'.mem[x] == a.mem[x];
      }
    }
    CountOneFrame(a, s', p, |s.mem|, g);
  }

  lemma DropInv(s: Snap, root: nat, i: nat, p: nat, j: nat)
    requires Inv(s) && Fresh(s, root, i, p, j)
    ensures Inv(Drop(s, root, i, p, j))
  {
    var s', d := Drop(s, root, i, p, j), s.mem[p][j];
    DropLists(s, root, i, p, j);
    forall x, y | 0 <= x < |s.mem| && 0 <= y < NPTENTRIES ensures EntryOk(s', x, y) {
      assert EntryOk(s, x, y);
    }
    forall g | 0 <= g < |s.mem| ensures UpOk(s', g) {
      assert UpOk(s, g);
    }
    forall g | 0 <= g < |s.mem| ensures RefOk(s', g) {
      assert RefOk(s, g);
      DropCounts(s, root, i, p, j, g);
    }
  }

  lemma DropView(s: Snap, root: nat, i: nat, p: nat, j: nat, r: nat, vpn: nat)
    requires Inv(s) && Fresh(s, root, i, p, j) && IsRoot(s, r) && vpn < NVPN
    ensures View(Drop(s, root, i, p, j), r, vpn) == View(s, r, vpn)
  {
    var s' := Drop(s, root, i, p, j);
    assert forall x :: 0 <= x < |s.mem| && x != root ==> s'.mem[x] == s.mem[x];
    DownLevel(s, r, Pml4(vpn));
    var a := Down(s, r, Pml4(vpn));
    if a.Some? {
      DownLevel(s, a.value, Pdpe(vpn));
      var b := Down(s, a.value, Pdpe(vpn));
      if b.Some? {
        DownLevel(s, b.value, Pdx(vpn));
      }
    }
  }

  lemma DropViews(s: Snap, root: nat, i: nat, p: nat, j: nat)
    requires Inv(s) && Fresh(s, root, i, p, j)
    ensures SameViews(s, Drop(s, root, i, p, j))
  {
    var s' := Drop(s, root, i, p, j);
    forall r: nat, vpn: nat | IsRoot(s, r) && vpn < NVPN ensures View(s', r, vpn) == View(s, r, vpn) {
      DropView(s, root, i, p, j, r, vpn);
    }
  }

  // ---------------- pml4e_walk

  ghost predicate NothingLost(s: Snap, s': Snap)
    requires Wf(s) && Wf(s')
  {
    forall x :: 0 <= x < |s.kinds| && x < |s'.kinds| ==> (s'.kinds[x].Lost? <==> s.kinds[x].Lost?)
  }

  ghost predicate LostStays(s: Snap, s': Snap)
    requires Wf(s) && Wf(s')
  {
    forall x :: 0 <= x < |s.kinds| && x < |s'.kinds| && s.kinds[x].Lost? ==> s'.kinds[x].Lost?
  }

  // A leak: one new lost frame, the old ones still lost.
  ghost predicate Leaks(s: Snap, s': Snap)
    requires Wf(s) && Wf(s')
  {
    LostStays(s, s') && !NothingLost(s, s')
  }

  // Frames in use as data are left alone by a walk.
  ghost predicate DataStays(s: Snap, s': Snap)
    requires Wf(s) && Wf(s')
  {
    |s'.mem| == |s.mem|
    && forall x :: 0 <= x < |s.kinds| && s.kinds[x] == Data ==>
         s'.kinds[x] == Data && s'.mem[x] == s.mem[x] && s'.pages[x] == s.pages[x]
  }

  // What the walk has built when it runs out of memory below a new page-directory-pointer table.
  lemma FreshState(s: Snap, root: nat, vpn: nat)
    requires Inv(s) && IsRoot(s, root) && vpn < NVPN && s.mem[root][Pml4(vpn)] == ZERO
    requires 1 <= |s.chain| <= 2
    ensures var a := Fill(s, root, Pml4(vpn)).0;
      var w := PdpeWalk(a, s.chain[0], vpn, true);
      && w.pte.None? && Inv(w.s) && SameViews(s, w.s) && NothingLost(s, w.s) && w.s.chain == []
      && Fresh(w.s, root, Pml4(vpn), s.chain[0], Pdpe(vpn))
      && (w.s.mem[s.chain[0]][Pdpe(vpn)] != ZERO <==> |s.chain| == 2)
  {
    var i, j, p := Pml4(vpn), Pdpe(vpn), s.chain[0];
    FillOk(s, root, i);
    FillAbove(s, root, i);
    var a := Fill(s, root, i).0;
    PdpeWalkOk(a, p, vpn, true);
    FillOk(a, p, j);
    SameViewsTrans(s, a, PdpeWalk(a, p, vpn, true).s);
  }

  lemma FreshFails(s: Snap, root: nat, vpn: nat)
    requires Inv(s) && IsRoot(s, root) && vpn < NVPN && s.mem[root][Pml4(vpn)] == ZERO
    requires 1 <= |s.chain| <= 2
    ensures var w := Pml4eWalk(s, root, vpn, true);
      && Inv(w.s) && SameViews(s, w.s) && w.pte.None? && |w.s.chain| == 1
      && (NothingLost(s, w.s) <==> |s.chain| != 2)
  {
    var i, j, p := Pml4(vpn), Pdpe(vpn), s.chain[0];
    FillOk(s, root, i);
    FreshState(s, root, vpn);
    var w := PdpeWalk(Fill(s, root, i).0, p, vpn, true);
    DropInv(w.s, root, i, p, j);
    DropViews(w.s, root, i, p, j);
    DropLists(w.s, root, i, p, j);
    SameViewsTrans(s, w.s, Drop(w.s, root, i, p, j));
    if |s.chain| == 2 {
      var d := w.s.mem[p][j].frame;
      assert Drop(w.s, root, i, p, j).kinds[d].Lost? && !w.s.kinds[d].Lost?;
    }
  }

  // With the entry absent: the walk needs three frames.
  lemma FreshWalk(s: Snap, root: nat, vpn: nat)
    requires Inv(s) && IsRoot(s, root) && vpn < NVPN && s.mem[root][Pml4(vpn)] == ZERO
    ensures var w := Pml4eWalk(s, root, vpn, true);
      && Inv(w.s) && SameViews(s, w.s)
      && (w.pte.None? <==> |s.chain| < 3)
      && (w.pte.Some? ==>
            w.pte.value.slot == Ptx(vpn) && LeafTable(w.s, root, vpn) == Some(w.pte.value.table)
            && |w.s.chain| == |s.chain| - 3)
      && (w.pte.None? ==> |w.s.chain| == if s.chain == [] then 0 else 1)
      && (NothingLost(s, w.s) <==> |s.chain| != 2)
  {
    hide FreeOk, RefsOk, TreeOk, View, PdpeWalk;
    FillOk(s, root, Pml4(vpn));
    if 1 <= |s.chain| <= 2 {
      FreshFails(s, root, vpn);
    } else if s.chain != [] {
      FillAbove(s, root, Pml4(vpn));
      var a := Fill(s, root, Pml4(vpn)).0;
      PdpeWalkOk(a, s.chain[0], vpn, true);
      SameViewsTrans(s, a, PdpeWalk(a, s.chain[0], vpn, true).s);
    }
  }

  // Every walk keeps the invariant and every view.  A creating walk fails exactly when the list is
  // shorter than the number of absent tables, and it loses a frame exactly when the top entry was
  // absent and two frames were left.
  lemma Pml4eWalkOk(s: Snap, root: nat, vpn: nat, create: bool)
    requires Inv(s) && IsRoot(s, root) && vpn < NVPN
    ensures var w := Pml4eWalk(s, root, vpn, create);
      && Inv(w.s) && SameViews(s, w.s)
      && (w.pte.None? <==> (if create then |s.chain| < Missing(s, root, vpn) else Missing(s, root, vpn) > 0))
      && (w.pte.Some? ==>
            w.pte.value.slot == Ptx(vpn) && LeafTable(w.s, root, vpn) == Some(w.pte.value.table)
            && |w.s.chain| == |s.chain| - Missing(s, root, vpn))
      && (!NothingLost(s, w.s) <==> create && s.mem[root][Pml4(vpn)] == ZERO && |s.chain| == 2)
  {
    assert EntryOk(s, root, Pml4(vpn));
    if s.mem[root][Pml4(vpn)] == ZERO {
      if create {
        FreshWalk(s, root, vpn);
      }
    } else {
      PdpeWalkOk(s, s.mem[root][Pml4(vpn)].frame, vpn, create);
    }
  }

  // When every table on the way exists the walk changes nothing.
  lemma WalkIsPure(s: Snap, root: nat, vpn: nat, create: bool)
    requires Inv(s) && IsRoot(s, root) && vpn < NVPN && LeafTable(s, root, vpn).Some?
    ensures Pml4eWalk(s, root, vpn, create) == Walked(s, Some(Loc(LeafTable(s, root, vpn).value, Ptx(vpn))))
  {
    LeafTableOk(s, root, vpn);
    DownLevel(s, root, Pml4(vpn));
    var a := Down(s, root, Pml4(vpn));
    DownLevel(s, a.value, Pdpe(vpn));
  }

  // ---------------- what a walk leaves alone

  lemma StepData(s: Snap, t: nat, i: nat, create: bool)
    requires Inv(s) && t < |s.mem| && i < NPTENTRIES && Level(s.kinds[t]) >= 2
    ensures DataStays(s, Step(s, t, i, create).0) && LostStays(s, Step(s, t, i, create).0)
  {
    if s.mem[t][i] == ZERO && create {
      FillOk(s, t, i);
      ListHead(s);
    }
  }

  lemma PdpeWalkData(s: Snap, pdpe: nat, vpn: nat, create: bool)
    requires Inv(s) && pdpe < |s.mem| && Level(s.kinds[pdpe]) == 3
    ensures var w := PdpeWalk(s, pdpe, vpn, create); DataStays(s, w.s) && LostStays(s, w.s)
  {
    assert EntryOk(s, pdpe, Pdpe(vpn));
    StepData(s, pdpe, Pdpe(vpn), create);
    var a := Step(s, pdpe, Pdpe(vpn), create);
    if a.1.Some? {
      if s.mem[pdpe][Pdpe(vpn)] == ZERO {
        FillOk(s, pdpe, Pdpe(vpn));
      }
      StepData(a.0, a.1.value, Pdx(vpn), create);
    }
  }

  lemma DropData(s: Snap, root: nat, i: nat, p: nat, j: nat)
    requires Inv(s) && Fresh(s, root, i, p, j)
    ensures DataStays(s, Drop(s, root, i, p, j)) && LostStays(s, Drop(s, root, i, p, j))
  {
  }

  lemma DataTrans(a: Snap, b: Snap, c: Snap)
    requires Wf(a) && Wf(b) && Wf(c) && DataStays(a, b) && DataStays(b, c) && LostStays(a, b) && LostStays(b, c)
    ensures DataStays(a, c) && LostStays(a, c)
  {
  }

  lemma FreshWalkData(s: Snap, root: nat, vpn: nat)
    requires Inv(s) && IsRoot(s, root) && vpn < NVPN && s.mem[root][Pml4(vpn)] == ZERO
    ensures var w := Pml4eWalk(s, root, vpn, true); DataStays(s, w.s) && LostStays(s, w.s)
  {
    var i := Pml4(vpn);
    StepData(s, root, i, true);
    FillOk(s, root, i);
    var a := Step(s, root, i, true);
    if a.1.Some? {
      PdpeWalkData(a.0, a.1.value, vpn, true);
      var w := PdpeWalk(a.0, a.1.value, vpn, true);
      DataTrans(s, a.0, w.s);
      if |s.chain| < 3 {
        FreshState(s, root, vpn);
        DropData(w.s, root, i, a.1.value, Pdpe(vpn));
        DataTrans(s, w.s, Drop(w.s, root, i, a.1.value, Pdpe(vpn)));
      } else {
        PdpeWalkOk(a.0, a.1.value, vpn, true);
      }
    }
  }

  // No walk touches a data frame, and what is lost stays lost.
  lemma Pml4eWalkData(s: Snap, root: nat, vpn: nat, create: bool)
    requires Inv(s) && IsRoot(s, root) && vpn < NVPN
    ensures var w := Pml4eWalk(s, root, vpn, create); DataStays(s, w.s) && LostStays(s, w.s)
  {
    assert EntryOk(s, root, Pml4(vpn));
    if s.mem[root][Pml4(vpn)] == ZERO {
      if create {
        FreshWalkData(s, root, vpn);
      }
    } else {
      PdpeWalkData(s, s.mem[root][Pml4(vpn)].frame, vpn, create);
    }
  }
}
