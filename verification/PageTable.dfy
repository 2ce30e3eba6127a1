// The physical free list, the reference counts and the four-level page tables of kern/pmap.c
// (section 4.5 of the Intel SDM, Volume 3A): state, invariant, and the meaning of a table.
module PageTable {
  import opened Wrappers

  const NPTENTRIES: nat := 512
  const REFMAX: nat := 0x1_0000     // pp_ref is a uint16_t
  const PTE_P: nat := 1
  const TABLEPERM: nat := 7         // PTE_W | PTE_U | PTE_P

  // struct PageInfo
  datatype PageInfo = PageInfo(link: Option<nat>, ref: nat)

  // A 64-bit table entry: PTE_ADDR(e) names the frame, the low 12 bits are perm.
  datatype Entry = Entry(frame: nat, perm: nat)

  const ZERO: Entry := Entry(0, 0)

  predicate Present(e: Entry) {
    e.perm % 2 == PTE_P
  }

  function WithP(perm: nat): (r: nat)
    ensures r % 2 == 1 && r / 2 == perm / 2 && (perm < 4096 ==> r < 4096)
  {
    if perm % 2 == 0 then perm + PTE_P else perm
  }

  // What a frame is used for.  A table below the root records the one entry that names it.
  datatype Kind =
    | Free
    | Data
    | Root
    | Table(level: nat, up: nat, slot: nat)   // level 3, 2 or 1
    | Lost                                    // allocated, reachable from no root

  function Level(k: Kind): nat {
    match k
    case Root => 4
    case Table(l, _, _) => l
    case _ => 0
  }

  predicate IsTable(k: Kind) {
    Level(k) > 0
  }

  // halted records a panic.  kinds and chain (the free list in order) are bookkeeping the kernel does
  // not store.
  datatype Snap = Snap(
    pages: seq<PageInfo>, free: Option<nat>, mem: seq<seq<Entry>>, halted: bool,
    kinds: seq<Kind>, chain: seq<nat>)

  predicate Wf(s: Snap) {
    && |s.pages| == |s.mem| == |s.kinds|
    && (forall f :: 0 <= f < |s.mem| ==> |s.mem[f]| == NPTENTRIES)
  }

  // ------------------------------------------------------------------
  // Counting references
  // ------------------------------------------------------------------

  function Names(e: Entry, f: nat): nat {
    if e != ZERO && e.frame == f then 1 else 0
  }

  function CountIn(t: seq<Entry>, f: nat): nat {
    if t == [] then 0 else Names(t[0], f) + CountIn(t[1..], f)
  }

  function Contribution(s: Snap, t: nat, f: nat): nat
    requires Wf(s) && t < |s.mem|
  {
    if IsTable(s.kinds[t]) then CountIn(s.mem[t], f) else 0
  }

  function CountUpTo(s: Snap, n: nat, f: nat): nat
    requires Wf(s) && n <= |s.mem|
  {
    if n == 0 then 0 else CountUpTo(s, n - 1, f) + Contribution(s, n - 1, f)
  }

  // Entries at all levels of all live tables that name frame f.
  function Count(s: Snap, f: nat): nat
    requires Wf(s)
  {
    CountUpTo(s, |s.mem|, f)
  }

  lemma {:induction false} CountInUpdate(t: seq<Entry>, i: nat, e: Entry, f: nat)
    requires i < |t|
    ensures CountIn(t[i := e], f) == CountIn(t, f) - Names(t[i], f) + Names(e, f)
    ensures Names(t[i], f) <= CountIn(t, f)
  {
    if i == 0 {
      assert t[i := e][1..] == t[1..];
    } else {
      assert t[i := e][1..] == t[1..][i - 1 := e];
      CountInUpdate(t[1..], i - 1, e, f);
    }
  }

  lemma {:induction false} CountInZero(t: seq<Entry>, f: nat)
    requires forall i :: 0 <= i < |t| ==> Names(t[i], f) == 0
    ensures CountIn(t, f) == 0
  {
    if t != [] {
      CountInZero(t[1..], f);
    }
  }

  // Changing one frame changes the count by the change of its contribution.
  lemma {:induction false} CountOneFrame(s: Snap, s': Snap, t: nat, n: nat, f: nat)
    requires Wf(s) && Wf(s') && |s.mem| == |s'.mem| && n <= |s.mem| && t < |s.mem|
    requires forall x :: 0 <= x < |s.mem| && x != t ==> Contribution(s', x, f) == Contribution(s, x, f)
    ensures CountUpTo(s', n, f) - CountUpTo(s, n, f)
      == if t < n then Contribution(s', t, f) - Contribution(s, t, f) else 0
  {
    if n > 0 {
      CountOneFrame(s, s', t, n - 1, f);
    }
  }

  lemma {:induction false} CountAtLeast(s: Snap, t: nat, n: nat, f: nat)
    requires Wf(s) && t < n <= |s.mem|
    ensures Contribution(s, t, f) <= CountUpTo(s, n, f)
  {
    if t < n - 1 {
      CountAtLeast(s, t, n - 1, f);
    }
  }

  // ------------------------------------------------------------------
  // Linear addresses
  // ------------------------------------------------------------------

  // Page numbers of 48-bit linear addresses.
  const NVPN: nat := 0x10_0000_0000

  function Ptx(vpn: nat): nat { vpn % NPTENTRIES }
  function Pdx(vpn: nat): nat { vpn / NPTENTRIES % NPTENTRIES }
  function Pdpe(vpn: nat): nat { vpn / NPTENTRIES / NPTENTRIES % NPTENTRIES }
  function Pml4(vpn: nat): nat { vpn / NPTENTRIES / NPTENTRIES / NPTENTRIES % NPTENTRIES }

  // PGADDR rebuilds the address from its four indices.
  lemma IndexSplit(vpn: nat)
    requires vpn < NVPN
    ensures Ptx(vpn) < NPTENTRIES && Pdx(vpn) < NPTENTRIES && Pdpe(vpn) < NPTENTRIES && Pml4(vpn) < NPTENTRIES
    ensures vpn == ((Pml4(vpn) * NPTENTRIES + Pdpe(vpn)) * NPTENTRIES + Pdx(vpn)) * NPTENTRIES + Ptx(vpn)
  {
  }

  lemma IndexSplitInjective(a: nat, b: nat)
    requires a < NVPN && b < NVPN
    requires Ptx(a) == Ptx(b) && Pdx(a) == Pdx(b) && Pdpe(a) == Pdpe(b) && Pml4(a) == Pml4(b)
    ensures a == b
  {
    IndexSplit(a);
    IndexSplit(b);
  }

  // ------------------------------------------------------------------
  // Invariant
  // ------------------------------------------------------------------

  predicate LinkOk(s: Snap, i: nat)
    requires i < |s.chain| && s.chain[i] < |s.pages|
  {
    s.pages[s.chain[i]].link == if i + 1 < |s.chain| then Some(s.chain[i + 1]) else None
  }

  // The free list runs, without repetition, through exactly the free frames.
  ghost predicate FreeOk(s: Snap)
    requires Wf(s)
  {
    && (forall i :: 0 <= i < |s.chain| ==> s.chain[i] < |s.pages|)
    && (forall i, j :: 0 <= i < j < |s.chain| ==> s.chain[i] != s.chain[j])
    && (forall f :: 0 <= f < |s.pages| ==> (s.kinds[f].Free? <==> f in s.chain))
    && s.free == (if s.chain == [] then None else Some(s.chain[0]))
    && (forall i :: 0 <= i < |s.chain| ==> LinkOk(s, i))
    && (forall f :: 0 <= f < |s.pages| && !s.kinds[f].Free? ==> s.pages[f].link == None)
  }

  // Entry i of table t is empty, or names the table below that points back, or a data frame.
  predicate EntryOk(s: Snap, t: nat, i: nat)
    requires Wf(s) && t < |s.mem| && i < NPTENTRIES
  {
    var e, l := s.mem[t][i], Level(s.kinds[t]);
    l > 0 ==>
      || e == ZERO
      || (e.frame < |s.mem| && e.perm < 4096 && Present(e)
          && s.kinds[e.frame] == if l == 1 then Data else Table(l - 1, t, i))
  }

  predicate UpOk(s: Snap, f: nat)
    requires Wf(s) && f < |s.mem|
  {
    s.kinds[f].Table? ==>
      var k := s.kinds[f];
      1 <= k.level <= 3 && k.up < |s.mem| && k.slot < NPTENTRIES
      && Level(s.kinds[k.up]) == k.level + 1
      && s.mem[k.up][k.slot] != ZERO && s.mem[k.up][k.slot].frame == f
  }

  ghost predicate TreeOk(s: Snap)
    requires Wf(s)
  {
    && (forall t, i :: 0 <= t < |s.mem| && 0 <= i < NPTENTRIES ==> EntryOk(s, t, i))
    && (forall f :: 0 <= f < |s.mem| ==> UpOk(s, f))
  }

  // pp_ref is the number of entries naming the frame; a root is also held by its environment, and a
  // lost frame keeps the reference of an entry that no longer exists.
  predicate RefOk(s: Snap, f: nat)
    requires Wf(s) && f < |s.mem|
  {
    s.pages[f].ref == Count(s, f) + (if s.kinds[f].Root? || s.kinds[f].Lost? then 1 else 0)
    && s.pages[f].ref < REFMAX
    && (s.kinds[f].Free? ==> s.pages[f].ref == 0)
  }

  ghost predicate RefsOk(s: Snap)
    requires Wf(s)
  {
    forall f :: 0 <= f < |s.mem| ==> RefOk(s, f)
  }

  ghost predicate Inv(s: Snap) {
    Wf(s) && !s.halted && FreeOk(s) && TreeOk(s) && RefsOk(s)
  }

  predicate IsRoot(s: Snap, r: nat) {
    Wf(s) && r < |s.mem| && s.kinds[r].Root?
  }

  // ------------------------------------------------------------------
  // The meaning of a table
  // ------------------------------------------------------------------

  function Down(s: Snap, t: nat, i: nat): (r: Option<nat>)
    requires Wf(s) && i < NPTENTRIES
    ensures r.Some? ==> t < |s.mem| && r.value == s.mem[t][i].frame && s.mem[t][i] != ZERO
  {
    if t < |s.mem| && s.mem[t][i] != ZERO then Some(s.mem[t][i].frame) else None
  }

  function DownFrom(s: Snap, t: Option<nat>, i: nat): Option<nat>
    requires Wf(s) && i < NPTENTRIES
  {
    if t.Some? then Down(s, t.value, i) else None
  }

  // The page table that holds the entry for vpn, if all levels exist.
  function LeafTable(s: Snap, root: nat, vpn: nat): Option<nat>
    requires Wf(s) && vpn < NVPN
  {
    DownFrom(s, DownFrom(s, Down(s, root, Pml4(vpn)), Pdpe(vpn)), Pdx(vpn))
  }

  // What the hardware finds at page vpn: the abstract map from page number to (frame, perm).
  function View(s: Snap, root: nat, vpn: nat): Option<Entry>
    requires Wf(s) && vpn < NVPN
  {
    var t := LeafTable(s, root, vpn);
    if t.Some? && t.value < |s.mem| && Present(s.mem[t.value][Ptx(vpn)]) then Some(s.mem[t.value][Ptx(vpn)]) else None
  }

  ghost predicate SameViews(s: Snap, s': Snap)
    requires Wf(s) && Wf(s')
  {
    && (forall r :: IsRoot(s, r) <==> IsRoot(s', r))
    && (forall r, vpn :: IsRoot(s, r) && 0 <= vpn < NVPN ==> View(s', r, vpn) == View(s, r, vpn))
  }

  // In a sound state each step down lands one level lower.
  lemma DownLevel(s: Snap, t: nat, i: nat)
    requires Inv(s) && t < |s.mem| && i < NPTENTRIES && Level(s.kinds[t]) >= 2
    ensures var d := Down(s, t, i);
      d.Some? ==> d.value < |s.mem| && s.kinds[d.value] == Table(Level(s.kinds[t]) - 1, t, i)
  {
    assert EntryOk(s, t, i);
  }

  // The tables on the way, and that they lead back.
  lemma LeafTableOk(s: Snap, root: nat, vpn: nat)
    requires Inv(s) && IsRoot(s, root) && vpn < NVPN
    ensures var t := LeafTable(s, root, vpn);
      t.Some? ==>
        && t.value < |s.mem|
        && Level(s.kinds[t.value]) == 1
        && s.kinds[t.value].Table? && s.kinds[t.value].slot == Pdx(vpn)
        && var pd := s.kinds[t.value].up;
           pd < |s.mem| && s.kinds[pd].Table? && s.kinds[pd].slot == Pdpe(vpn)
           && var pdp := s.kinds[pd].up;
              pdp < |s.mem| && s.kinds[pdp].Table? && s.kinds[pdp].slot == Pml4(vpn) && s.kinds[pdp].up == root
  {
    DownLevel(s, root, Pml4(vpn));
    var a := Down(s, root, Pml4(vpn));
    if a.Some? {
      DownLevel(s, a.value, Pdpe(vpn));
      var b := Down(s, a.value, Pdpe(vpn));
      if b.Some? {
        DownLevel(s, b.value, Pdx(vpn));
      }
    }
  }

  // Two addresses that share a leaf entry are the same address of the same root.
  lemma LeafUnique(s: Snap, r: nat, a: nat, q: nat, b: nat)
    requires Inv(s) && IsRoot(s, r) && IsRoot(s, q) && a < NVPN && b < NVPN
    requires LeafTable(s, r, a).Some? && LeafTable(s, r, a) == LeafTable(s, q, b) && Ptx(a) == Ptx(b)
    ensures r == q && a == b
  {
    LeafTableOk(s, r, a);
    LeafTableOk(s, q, b);
    IndexSplitInjective(a, b);
  }

  // ------------------------------------------------------------------
  // The free list: page_alloc, page_free, page_decref
  // ------------------------------------------------------------------

  function Zeros(): (r: seq<Entry>)
    ensures |r| == NPTENTRIES && forall i :: 0 <= i < NPTENTRIES ==> r[i] == ZERO
  {
    seq(NPTENTRIES, _ => ZERO)
  }

  function SetRef(s: Snap, f: nat, ref: nat): (s': Snap)
    requires Wf(s) && f < |s.pages|
    ensures Wf(s')
  {
    s.(pages := s.pages[f := s.pages[f].(ref := ref)])
  }

  function SetEntry(s: Snap, t: nat, i: nat, e: Entry): (s': Snap)
    requires Wf(s) && t < |s.mem| && i < NPTENTRIES
    ensures Wf(s')
  {
    s.(mem := s.mem[t := s.mem[t][i := e]])
  }

  function SetKind(s: Snap, f: nat, k: Kind): (s': Snap)
    requires Wf(s) && f < |s.kinds|
    ensures Wf(s')
  {
    s.(kinds := s.kinds[f := k])
  }

  // page_alloc takes the head of the list.
  function Pop(s: Snap, f: nat, zero: bool): (s': Snap)
    requires Wf(s) && f < |s.pages|
    ensures Wf(s')
  {
    Snap(s.pages[f := s.pages[f].(link := None)], s.pages[f].link,
         if zero then s.mem[f := Zeros()] else s.mem, s.halted,
         s.kinds[f := Data], if s.chain == [] then [] else s.chain[1..])
  }

  function PageAlloc(s: Snap, zero: bool): (r: (Snap, Option<nat>))
    requires Wf(s)
    ensures Wf(r.0) && |r.0.mem| == |s.mem|
    ensures r.1.Some? ==> r.1.value < |s.mem|
  {
    if s.free.Some? && s.free.value < |s.pages| then (Pop(s, s.free.value, zero), s.free) else (s, None)
  }

  // insertAtBegining links the node only when the list is not empty.
  function Push(s: Snap, f: nat): (s': Snap)
    requires Wf(s) && f < |s.pages|
    ensures Wf(s')
  {
    s.(pages := if s.free == None then s.pages else s.pages[f := s.pages[f].(link := s.free)],
       free := Some(f), kinds := s.kinds[f := Free], chain := [f] + s.chain)
  }

  function PageFree(s: Snap, f: nat): (s': Snap)
    requires Wf(s) && f < |s.pages|
    ensures Wf(s')
  {
    if s.pages[f].ref != 0 || s.pages[f].link != None then s.(halted := true) else Push(s, f)
  }

  // --pp_ref on a uint16_t.
  function PageDecref(s: Snap, f: nat): (s': Snap)
    requires Wf(s) && f < |s.pages|
    ensures Wf(s')
  {
    var s1 := SetRef(s, f, if s.pages[f].ref == 0 then REFMAX - 1 else s.pages[f].ref - 1);
    if s1.pages[f].ref == 0 then PageFree(s1, f) else s1
  }

  ghost predicate SameCounts(s: Snap, s': Snap)
    requires Wf(s) && Wf(s') && |s.mem| == |s'.mem|
  {
    forall f :: 0 <= f < |s.mem| ==> Count(s', f) == Count(s, f)
  }

  lemma {:induction false} SameContributions(s: Snap, s': Snap, n: nat, f: nat)
    requires Wf(s) && Wf(s') && |s.mem| == |s'.mem| && n <= |s.mem|
    requires forall x :: 0 <= x < n ==> Contribution(s', x, f) == Contribution(s, x, f)
    ensures CountUpTo(s', n, f) == CountUpTo(s, n, f)
  {
    if n > 0 {
      SameContributions(s, s', n - 1, f);
    }
  }

  // Tables are the same frames with the same entries.
  ghost predicate SameTables(s: Snap, s': Snap)
    requires Wf(s) && Wf(s')
  {
    && |s.mem| == |s'.mem|
    && (forall t :: 0 <= t < |s.mem| ==> IsTable(s'.kinds[t]) == IsTable(s.kinds[t]))
    && (forall t :: 0 <= t < |s.mem| && IsTable(s.kinds[t]) ==> s'.mem[t] == s.mem[t] && s'.kinds[t] == s.kinds[t])
  }

  lemma SameTablesCounts(s: Snap, s': Snap)
    requires Wf(s) && Wf(s') && SameTables(s, s')
    ensures SameCounts(s, s')
  {
    forall f | 0 <= f < |s.mem| ensures Count(s', f) == Count(s, f) {
      SameContributions(s, s', |s.mem|, f);
    }
  }

  lemma SameTablesView(s: Snap, s': Snap, root: nat, vpn: nat)
    requires Inv(s) && Wf(s') && SameTables(s, s') && IsRoot(s, root) && vpn < NVPN
    ensures LeafTable(s', root, vpn) == LeafTable(s, root, vpn)
    ensures View(s', root, vpn) == View(s, root, vpn)
  {
    LeafTableOk(s, root, vpn);
    DownLevel(s, root, Pml4(vpn));
    var a := Down(s, root, Pml4(vpn));
    if a.Some? {
      DownLevel(s, a.value, Pdpe(vpn));
    }
  }

  lemma SameTablesViews(s: Snap, s': Snap)
    requires Inv(s) && Wf(s') && SameTables(s, s')
    ensures SameViews(s, s')
  {
    forall r: nat | IsRoot(s, r) ensures IsRoot(s', r) {
      assert IsTable(s.kinds[r]);
    }
    forall r: nat | IsRoot(s', r) ensures IsRoot(s, r) {
      assert IsTable(s'.kinds[r]);
    }
    forall r, vpn | IsRoot(s, r) && 0 <= vpn < NVPN ensures View(s', r, vpn) == View(s, r, vpn) {
      SameTablesView(s, s', r, vpn);
    }
  }

  // An entry that names a frame is counted.
  lemma NamedIsCounted(s: Snap, t: nat, i: nat, f: nat)
    requires Wf(s) && t < |s.mem| && i < NPTENTRIES && IsTable(s.kinds[t])
    requires s.mem[t][i] != ZERO && s.mem[t][i].frame == f
    ensures Count(s, f) >= 1
  {
    CountInUpdate(s.mem[t], i, ZERO, f);
    CountAtLeast(s, t, |s.mem|, f);
  }

  // ---------------- page_alloc

  lemma PopLists(s: Snap, zero: bool)
    requires Inv(s) && s.free.Some?
    ensures s.free.value < |s.pages| && FreeOk(Pop(s, s.free.value, zero))
    ensures s.kinds[s.free.value].Free? && s.chain != [] && s.chain[0] == s.free.value
  {
    var f := s.free.value;
    var s' := Pop(s, f, zero);
    assert s.chain[0] == f && f in s.chain && LinkOk(s, 0);
    forall g | 0 <= g < |s.pages| ensures s'.kinds[g].Free? <==> g in s'.chain {
      if g in s.chain && g != f {
        var i :| 0 <= i < |s.chain| && s.chain[i] == g;
        assert s'.chain[i - 1] == g;
      }
    }
    forall i | 0 <= i < |s'.chain| ensures LinkOk(s', i) {
      assert LinkOk(s, i + 1);
      assert s'.chain[i] == s.chain[i + 1] && s'.chain[i] != f;
    }
  }

  lemma PopInv(s: Snap, zero: bool)
    requires Inv(s) && s.free.Some?
    ensures s.free.value < |s.pages|
    ensures var s' := Pop(s, s.free.value, zero);
      Inv(s') && SameTables(s, s') && SameCounts(s, s') && SameViews(s, s')
      && s'.kinds[s.free.value] == Data && s'.pages[s.free.value].ref == 0 && s'.chain == s.chain[1..]
  {
    PopLists(s, zero);
    var f := s.free.value;
    var s' := Pop(s, f, zero);
    assert RefOk(s, f);
    SameTablesCounts(s, s');
    SameTablesViews(s, s');
    forall t, i | 0 <= t < |s.mem| && 0 <= i < NPTENTRIES ensures EntryOk(s', t, i) {
      assert EntryOk(s, t, i);
    }
    forall g | 0 <= g < |s.mem| ensures UpOk(s', g) {
      assert UpOk(s, g);
    }
    forall g | 0 <= g < |s.mem| ensures RefOk(s', g) {
      assert RefOk(s, g);
    }
  }

  // ---------------- page_free

  lemma PushLists(s: Snap, f: nat)
    requires Inv(s) && f < |s.pages| && s.kinds[f] == Data
    ensures FreeOk(Push(s, f)) && Push(s, f).pages[f].ref == s.pages[f].ref
  {
    var s' := Push(s, f);
    assert s'.chain[0] == f;
    assert f !in s.chain;
    forall g | 0 <= g < |s.pages| ensures s'.kinds[g].Free? <==> g in s'.chain {
      if g in s.chain {
        var i :| 0 <= i < |s.chain| && s.chain[i] == g;
        assert s'.chain[i + 1] == g;
      }
    }
    forall i | 0 <= i < |s'.chain| ensures LinkOk(s', i) {
      if i > 0 {
        assert LinkOk(s, i - 1);
        assert s'.chain[i] == s.chain[i - 1] && s.chain[i - 1] in s.chain;
      }
    }
  }

  lemma PushInv(s: Snap, f: nat)
    requires Inv(s) && f < |s.pages| && s.kinds[f] == Data && s.pages[f].ref == 0
    ensures Inv(Push(s, f)) && SameTables(s, Push(s, f)) && SameViews(s, Push(s, f))
  {
    var s' := Push(s, f);
    PushLists(s, f);
    SameTablesCounts(s, s');
    SameTablesViews(s, s');
    assert RefOk(s, f);
    forall t, i | 0 <= t < |s.mem| && 0 <= i < NPTENTRIES ensures EntryOk(s', t, i) {
      assert EntryOk(s, t, i);
      if IsTable(s.kinds[t]) && s.mem[t][i] != ZERO && s.mem[t][i].frame == f {
        NamedIsCounted(s, t, i, f);
      }
    }
    forall g | 0 <= g < |s.mem| ensures UpOk(s', g) {
      assert UpOk(s, g);
    }
    forall g | 0 <= g < |s.mem| ensures RefOk(s', g) {
      assert RefOk(s, g);
    }
  }

  lemma InUseIsCounted(s: Snap, f: nat)
    requires Inv(s) && f < |s.pages|
    ensures s.kinds[f] != Free && s.kinds[f] != Data ==> s.pages[f].ref >= 1
  {
    assert RefOk(s, f) && UpOk(s, f);
    if s.kinds[f].Table? {
      NamedIsCounted(s, s.kinds[f].up, s.kinds[f].slot, f);
    }
  }

  // The tail of the list pushed once more is on it twice.
  lemma PushTwice(s: Snap, f: nat)
    requires Inv(s) && f < |s.pages| && s.kinds[f].Free?
    ensures !FreeOk(Push(s, f))
  {
    var i :| 0 <= i < |s.chain| && s.chain[i] == f;
    var s' := Push(s, f);
    assert s'.chain[0] == f && s'.chain[i + 1] == f;
  }

  // page_free does its job exactly on an allocated page without references.  Its test of pp_link catches a
  // second free of any page but the last of the free list.
  lemma PageFreeExact(s: Snap, f: nat)
    requires Inv(s) && f < |s.pages|
    ensures Inv(PageFree(s, f)) <==> s.kinds[f] == Data && s.pages[f].ref == 0
    ensures PageFree(s, f).halted <==>
      s.pages[f].ref != 0 || (s.kinds[f] == Free && s.chain != [] && f != s.chain[|s.chain| - 1])
  {
    InUseIsCounted(s, f);
    if s.kinds[f].Free? {
      var i :| 0 <= i < |s.chain| && s.chain[i] == f;
      assert LinkOk(s, i) && RefOk(s, f);
      PushTwice(s, f);
    } else if s.pages[f].ref == 0 {
      PushInv(s, f);
    }
    hide TreeOk, RefsOk, LinkOk;
  }

  // ------------------------------------------------------------------
  // One entry changes
  // ------------------------------------------------------------------

  // Count after the single entry (t, i) of a live table became e and no other table changed.
  lemma CountAfterStore(s: Snap, s': Snap, t: nat, i: nat, e: Entry, f: nat)
    requires Wf(s) && Wf(s') && |s.mem| == |s'.mem| && t < |s.mem| && i < NPTENTRIES && f < |s.mem|
    requires IsTable(s.kinds[t]) && IsTable(s'.kinds[t]) && s'.mem[t] == s.mem[t][i := e]
    requires forall x :: 0 <= x < |s.mem| && x != t ==> Contribution(s', x, f) == Contribution(s, x, f)
    ensures Count(s', f) == Count(s, f) - Names(s.mem[t][i], f) + Names(e, f)
  {
    CountInUpdate(s.mem[t], i, e, f);
    CountOneFrame(s, s', t, |s.mem|, f);
  }

  // A new table f under entry (t, i).
  function Link(s: Snap, t: nat, i: nat, f: nat): (s': Snap)
    requires Wf(s) && t < |s.mem| && i < NPTENTRIES && f < |s.mem|
    ensures Wf(s') && |s'.mem| == |s.mem|
  {
    SetEntry(SetRef(SetKind(s, f, Table(if Level(s.kinds[t]) > 0 then Level(s.kinds[t]) - 1 else 0, t, i)),
                    f, s.pages[f].ref + 1),
             t, i, Entry(f, TABLEPERM))
  }

  predicate Linkable(s: Snap, t: nat, i: nat, f: nat)
    requires Wf(s)
  {
    && t < |s.mem| && i < NPTENTRIES && f < |s.mem| && Level(s.kinds[t]) >= 2 && s.mem[t][i] == ZERO
    && s.kinds[f] == Data && s.pages[f].ref == 0 && s.mem[f] == Zeros()
  }

  lemma LinkCounts(s: Snap, t: nat, i: nat, f: nat, g: nat)
    requires Inv(s) && Linkable(s, t, i, f) && g < |s.mem|
    ensures Count(Link(s, t, i, f), g) == Count(s, g) + (if g == f then 1 else 0)
  {
    var s' := Link(s, t, i, f);
    forall x | 0 <= x < |s.mem| && x != t ensures Contribution(s', x, g) == Contribution(s, x, g) {
      if x == f {
        CountInZero(s'.mem[f], g);
      }
    }
    CountAfterStore(s, s', t, i, Entry(f, TABLEPERM), g);
  }

  lemma LinkInv(s: Snap, t: nat, i: nat, f: nat)
    requires Inv(s) && Linkable(s, t, i, f)
    ensures Inv(Link(s, t, i, f))
  {
    var s' := Link(s, t, i, f);
    forall j | 0 <= j < |s'.chain| ensures LinkOk(s', j) {
      assert LinkOk(s, j);
      assert s.chain[j] in s.chain;
    }
    forall x, j | 0 <= x < |s.mem| && 0 <= j < NPTENTRIES ensures EntryOk(s', x, j) {
      assert EntryOk(s, x, j);
      if IsTable(s.kinds[x]) && s.mem[x][j] != ZERO && s.mem[x][j].frame == f {
        assert RefOk(s, f);
        NamedIsCounted(s, x, j, f);
      }
    }
    forall g | 0 <= g < |s.mem| ensures UpOk(s', g) {
      assert UpOk(s, g) && UpOk(s, t);
    }
    forall g | 0 <= g < |s.mem| ensures RefOk(s', g) {
      assert RefOk(s, g);
      LinkCounts(s, t, i, f, g);
    }
  }

  // A new, empty table is invisible.
  lemma LinkView(s: Snap, t: nat, i: nat, f: nat, root: nat, vpn: nat)
    requires Inv(s) && Linkable(s, t, i, f) && IsRoot(s, root) && vpn < NVPN
    ensures View(Link(s, t, i, f), root, vpn) == View(s, root, vpn)
  {
    var s' := Link(s, t, i, f);
    DownLevel(s, root, Pml4(vpn));
    var a := Down(s, root, Pml4(vpn));
    if a.Some? {
      DownLevel(s, a.value, Pdpe(vpn));
      var b := Down(s, a.value, Pdpe(vpn));
      if b.Some? {
        DownLevel(s, b.value, Pdx(vpn));
      }
    }
  }

  lemma LinkViews(s: Snap, t: nat, i: nat, f: nat)
    requires Inv(s) && Linkable(s, t, i, f)
    ensures SameViews(s, Link(s, t, i, f))
  {
    var s' := Link(s, t, i, f);
    forall r: nat, vpn | IsRoot(s, r) && 0 <= vpn < NVPN ensures View(s', r, vpn) == View(s, r, vpn) {
      LinkView(s, t, i, f, r, vpn);
    }
  }

  // ---------------- leaf entries

  predicate IsLeaf(s: Snap, t: nat, i: nat)
    requires Wf(s)
  {
    t < |s.mem| && i < NPTENTRIES && Level(s.kinds[t]) == 1
  }

  // Store e in a leaf slot and give frame f the reference count ref.
  function Leaf(s: Snap, t: nat, i: nat, e: Entry, f: nat, ref: nat): (s': Snap)
    requires Wf(s) && t < |s.mem| && i < NPTENTRIES && f < |s.mem|
    ensures Wf(s') && |s'.mem| == |s.mem|
  {
    SetEntry(SetRef(s, f, ref), t, i, e)
  }

  // Keeping the count right is all a leaf store has to do.
  lemma LeafInv(s: Snap, t: nat, i: nat, e: Entry, f: nat, ref: nat)
    requires Inv(s) && IsLeaf(s, t, i) && f < |s.mem|
    requires e == ZERO || (e.frame == f && s.kinds[f] == Data && e.perm < 4096 && Present(e))
    requires s.mem[t][i] == ZERO || s.mem[t][i].frame == f
    requires ref < REFMAX && ref == s.pages[f].ref - Names(s.mem[t][i], f) + Names(e, f)
    requires s.kinds[f] == Data
    ensures Inv(Leaf(s, t, i, e, f, ref))
  {
    var s' := Leaf(s, t, i, e, f, ref);
    forall j | 0 <= j < |s'.chain| ensures LinkOk(s', j) {
      assert LinkOk(s, j);
      assert s.chain[j] in s.chain;
    }
    forall x, j | 0 <= x < |s.mem| && 0 <= j < NPTENTRIES ensures EntryOk(s', x, j) {
      assert EntryOk(s, x, j);
    }
    forall g | 0 <= g < |s.mem| ensures UpOk(s', g) {
      assert UpOk(s, g);
    }
    forall g | 0 <= g < |s.mem| ensures RefOk(s', g) {
      assert RefOk(s, g);
      CountAfterStore(s, s', t, i, e, g);
    }
  }

  lemma LeafView(s: Snap, t: nat, i: nat, e: Entry, f: nat, ref: nat, root: nat, vpn: nat)
    requires Inv(s) && IsLeaf(s, t, i) && f < |s.mem| && IsRoot(s, root) && vpn < NVPN
    ensures var s' := Leaf(s, t, i, e, f, ref);
      && LeafTable(s', root, vpn) == LeafTable(s, root, vpn)
      && View(s', root, vpn) ==
         if LeafTable(s, root, vpn) == Some(t) && Ptx(vpn) == i then (if Present(e) then Some(e) else None)
         else View(s, root, vpn)
  {
    LeafTableOk(s, root, vpn);
    DownLevel(s, root, Pml4(vpn));
    var a := Down(s, root, Pml4(vpn));
    if a.Some? {
      DownLevel(s, a.value, Pdpe(vpn));
      var b := Down(s, a.value, Pdpe(vpn));
      if b.Some? {
        DownLevel(s, b.value, Pdx(vpn));
      }
    }
  }

  // One key of one root changes.
  ghost predicate OneKey(s: Snap, s': Snap, root: nat, vpn: nat, to: Option<Entry>)
    requires Wf(s) && Wf(s') && vpn < NVPN
  {
    && (forall r: nat :: IsRoot(s, r) <==> IsRoot(s', r))
    && (forall r: nat, v: nat :: IsRoot(s, r) && v < NVPN ==>
          View(s', r, v) == if r == root && v == vpn then to else View(s, r, v))
  }

  lemma LeafViews(s: Snap, t: nat, e: Entry, f: nat, ref: nat, root: nat, vpn: nat)
    requires Inv(s) && IsRoot(s, root) && vpn < NVPN && LeafTable(s, root, vpn) == Some(t)
    requires IsLeaf(s, t, Ptx(vpn)) && f < |s.mem|
    ensures OneKey(s, Leaf(s, t, Ptx(vpn), e, f, ref), root, vpn, if Present(e) then Some(e) else None)
  {
    var s' := Leaf(s, t, Ptx(vpn), e, f, ref);
    forall r: nat, v: nat | IsRoot(s, r) && v < NVPN
      ensures View(s', r, v) == if r == root && v == vpn then (if Present(e) then Some(e) else None) else View(s, r, v)
    {
      LeafView(s, t, Ptx(vpn), e, f, ref, r, v);
      if LeafTable(s, r, v) == Some(t) && Ptx(v) == Ptx(vpn) {
        LeafUnique(s, r, v, root, vpn);
      }
    }
  }
}
