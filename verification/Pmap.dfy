// page_insert, page_lookup and page_remove of kern/pmap.c refine a map from page number to
// (frame, perm), and keep the reference counts equal to the number of entries.
module Pmap {
  import opened Wrappers
  import opened PageTable
  import opened PageWalk

  datatype Found = Found(s: Snap, page: Option<nat>, pte: Option<Loc>)

  // page_lookup walks with create set.
  function PageLookup(s: Snap, root: nat, vpn: nat): (r: Found)
    requires Wf(s) && root < |s.mem|
    ensures Wf(r.s) && |r.s.mem| == |s.mem|
  {
    var w := Pml4eWalk(s, root, vpn, true);
    if w.pte.None? || w.pte.value.table >= |s.mem| || w.pte.value.slot >= NPTENTRIES then Found(w.s, None, None)
    else
      var e := w.s.mem[w.pte.value.table][w.pte.value.slot];
      if Present(e) then Found(w.s, Some(e.frame), w.pte) else Found(w.s, None, None)
  }

  function PageRemove(s: Snap, root: nat, vpn: nat): (s': Snap)
    requires Wf(s) && root < |s.mem|
    ensures Wf(s') && |s'.mem| == |s.mem|
  {
    var f := PageLookup(s, root, vpn);
    if f.page.None? then f.s
    else if f.page.value >= |s.mem| || f.pte.None? || f.pte.value.table >= |s.mem| || f.pte.value.slot >= NPTENTRIES then
      f.s.(halted := true)               // pa2page panics
    else SetEntry(PageDecref(f.s, f.page.value), f.pte.value.table, f.pte.value.slot, ZERO)
  }

  // The last two stores of page_insert.
  function Store(s: Snap, at: Loc, frame: nat, to: Entry): (s': Snap)
    requires Wf(s) && frame < |s.mem| && at.table < |s.mem| && at.slot < NPTENTRIES
    ensures Wf(s') && |s'.mem| == |s.mem|
  {
    SetRef(SetEntry(s, at.table, at.slot, to), frame, (s.pages[frame].ref + 1) % REFMAX)
  }

  // page_insert once the walk has ended at an entry.  removed is the state after page_remove.
  function InsertAt(s: Snap, removed: Snap, at: Loc, frame: nat, perm: nat): (s': Snap)
    requires Wf(s) && Wf(removed) && |removed.mem| == |s.mem|
    requires frame < |s.mem| && at.table < |s.mem| && at.slot < NPTENTRIES
    ensures Wf(s') && |s'.mem| == |s.mem|
  {
    var e, to := s.mem[at.table][at.slot], Entry(frame, WithP(perm));
    if Present(e) && e.frame == frame then SetEntry(s, at.table, at.slot, to)
    else Store(if Present(e) then removed else s, at, frame, to)
  }

  // The pair is the new state and whether the call succeeded (false is -E_NO_MEM).
  function PageInsert(s: Snap, root: nat, frame: nat, vpn: nat, perm: nat): (r: (Snap, bool))
    requires Wf(s) && root < |s.mem| && frame < |s.mem|
    ensures Wf(r.0) && |r.0.mem| == |s.mem|
  {
    var w := Pml4eWalk(s, root, vpn, true);
    if w.pte.None? || w.pte.value.table >= |s.mem| || w.pte.value.slot >= NPTENTRIES then (w.s, false)
    else (InsertAt(w.s, PageRemove(w.s, root, vpn), w.pte.value, frame, perm), true)
  }

  // ------------------------------------------------------------------
  // One call
  // ------------------------------------------------------------------

  lemma OneKeyAfter(a: Snap, b: Snap, c: Snap, root: nat, vpn: nat, to: Option<Entry>)
    requires Wf(a) && Wf(b) && Wf(c) && vpn < NVPN
    requires SameViews(a, b) && OneKey(b, c, root, vpn, to)
    ensures OneKey(a, c, root, vpn, to)
  {
  }

  lemma OneKeyBefore(a: Snap, b: Snap, c: Snap, root: nat, vpn: nat, to: Option<Entry>)
    requires Wf(a) && Wf(b) && Wf(c) && vpn < NVPN
    requires OneKey(a, b, root, vpn, to) && SameViews(b, c)
    ensures OneKey(a, c, root, vpn, to)
  {
  }

  lemma OneKeyTwice(a: Snap, b: Snap, c: Snap, root: nat, vpn: nat, to: Option<Entry>, to': Option<Entry>)
    requires Wf(a) && Wf(b) && Wf(c) && vpn < NVPN
    requires OneKey(a, b, root, vpn, to) && OneKey(b, c, root, vpn, to')
    ensures OneKey(a, c, root, vpn, to')
  {
  }

  // The entry the walk ended at, in the state it left.
  ghost predicate Reached(s: Snap, at: Loc, root: nat, vpn: nat) {
    && Inv(s) && IsRoot(s, root) && vpn < NVPN
    && LeafTable(s, root, vpn) == Some(at.table) && at.slot == Ptx(vpn) && IsLeaf(s, at.table, at.slot)
  }

  // The same entry after the page mapped there was removed.
  ghost predicate Cleared(s: Snap, s1: Snap, at: Loc, root: nat, vpn: nat, frame: nat)
    requires Wf(s) && vpn < NVPN && frame < |s.mem|
  {
    && Reached(s1, at, root, vpn) && OneKey(s, s1, root, vpn, None) && |s1.mem| == |s.mem|
    && s1.mem[at.table][at.slot] == ZERO && s1.kinds[frame] == Data && s1.pages[frame] == s.pages[frame]
  }

  // No table on the way means nothing is mapped, so a failed walk cannot hide a mapping.
  lemma MissingMeansUnmapped(s: Snap, root: nat, vpn: nat)
    requires Inv(s) && IsRoot(s, root) && vpn < NVPN
    ensures Missing(s, root, vpn) > 0 <==> LeafTable(s, root, vpn).None?
    ensures Missing(s, root, vpn) > 0 ==> View(s, root, vpn).None?
  {
    assert EntryOk(s, root, Pml4(vpn));
    var a := Down(s, root, Pml4(vpn));
    if a.Some? {
      assert EntryOk(s, a.value, Pdpe(vpn));
      var b := Down(s, a.value, Pdpe(vpn));
      if b.Some? {
        assert EntryOk(s, b.value, Pdx(vpn));
      }
    }
  }

  // page_lookup answers from the map, and changes no map.
  lemma LookupSpec(s: Snap, root: nat, vpn: nat)
    requires Inv(s) && IsRoot(s, root) && vpn < NVPN
    ensures var r := PageLookup(s, root, vpn);
      && Inv(r.s) && SameViews(s, r.s)
      && r.page == (if View(s, root, vpn).Some? then Some(View(s, root, vpn).value.frame) else None)
      && (r.page.Some? ==>
            r.pte.Some? && r.pte.value.slot == Ptx(vpn) && LeafTable(r.s, root, vpn) == Some(r.pte.value.table)
            && r.s == s && IsLeaf(s, r.pte.value.table, Ptx(vpn)))
  {
    Pml4eWalkOk(s, root, vpn, true);
    MissingMeansUnmapped(s, root, vpn);
    if Missing(s, root, vpn) == 0 {
      WalkIsPure(s, root, vpn, true);
      LeafTableOk(s, root, vpn);
    } else {
      var w := Pml4eWalk(s, root, vpn, true);
      assert View(w.s, root, vpn).None?;
      if w.pte.Some? {
        LeafTableOk(w.s, root, vpn);
      }
    }
  }

  // No mapped page is free: it is data, and its references are counted.
  lemma MappedIsLive(s: Snap, root: nat, vpn: nat)
    requires Inv(s) && IsRoot(s, root) && vpn < NVPN && View(s, root, vpn).Some?
    ensures LeafTable(s, root, vpn).Some? && IsLeaf(s, LeafTable(s, root, vpn).value, Ptx(vpn))
    ensures s.mem[LeafTable(s, root, vpn).value][Ptx(vpn)] == View(s, root, vpn).value
    ensures Present(View(s, root, vpn).value) && View(s, root, vpn).value != ZERO
    ensures var f := View(s, root, vpn).value.frame;
      f < |s.pages| && s.kinds[f] == Data && 1 <= s.pages[f].ref < REFMAX && s.pages[f].link == None && f !in s.chain
  {
    LeafTableOk(s, root, vpn);
    var t, i := LeafTable(s, root, vpn).value, Ptx(vpn);
    assert EntryOk(s, t, i);
    var f := s.mem[t][i].frame;
    assert RefOk(s, f);
    NamedIsCounted(s, t, i, f);
  }

  // Decrementing and then clearing the entry is clearing the entry and then freeing.
  lemma DecrefThenClear(s: Snap, t: nat, i: nat, f: nat)
    requires Wf(s) && t < |s.mem| && i < NPTENTRIES && f < |s.mem|
    requires s.pages[f].ref >= 1 && s.pages[f].link == None
    ensures var u := Leaf(s, t, i, ZERO, f, s.pages[f].ref - 1);
      SetEntry(PageDecref(s, f), t, i, ZERO) == if s.pages[f].ref == 1 then Push(u, f) else u
  {
  }

  // page_remove of a mapped page in terms of the two leaf transitions.
  lemma RemoveIs(s: Snap, root: nat, vpn: nat)
    requires Inv(s) && IsRoot(s, root) && vpn < NVPN && View(s, root, vpn).Some?
    ensures LeafTable(s, root, vpn).Some? && IsLeaf(s, LeafTable(s, root, vpn).value, Ptx(vpn))
    ensures var t, f := LeafTable(s, root, vpn).value, View(s, root, vpn).value.frame;
      && f < |s.pages| && s.pages[f].ref >= 1
      && var u := Leaf(s, t, Ptx(vpn), ZERO, f, s.pages[f].ref - 1);
         PageRemove(s, root, vpn) == if s.pages[f].ref == 1 then Push(u, f) else u
  {
    MappedIsLive(s, root, vpn);
    LookupSpec(s, root, vpn);
    DecrefThenClear(s, LeafTable(s, root, vpn).value, Ptx(vpn), View(s, root, vpn).value.frame);
  }

  // Clearing the entry of a mapped page and dropping its reference.
  lemma ClearMapped(s: Snap, root: nat, vpn: nat)
    requires Inv(s) && IsRoot(s, root) && vpn < NVPN && View(s, root, vpn).Some?
    ensures LeafTable(s, root, vpn).Some? && IsLeaf(s, LeafTable(s, root, vpn).value, Ptx(vpn))
    ensures var t, f := LeafTable(s, root, vpn).value, View(s, root, vpn).value.frame;
      && f < |s.pages| && s.kinds[f] == Data && s.pages[f].ref >= 1
      && var u := Leaf(s, t, Ptx(vpn), ZERO, f, s.pages[f].ref - 1);
         Inv(u) && OneKey(s, u, root, vpn, None) && LeafTable(u, root, vpn) == LeafTable(s, root, vpn)
         && IsLeaf(u, t, Ptx(vpn)) && u.mem[t][Ptx(vpn)] == ZERO
  {
    hide FreeOk, TreeOk, RefsOk, OneKey, LeafTable, View;
    MappedIsLive(s, root, vpn);
    var t, i, f := LeafTable(s, root, vpn).value, Ptx(vpn), View(s, root, vpn).value.frame;
    LeafInv(s, t, i, ZERO, f, s.pages[f].ref - 1);
    LeafViews(s, t, ZERO, f, s.pages[f].ref - 1, root, vpn);
    LeafView(s, t, i, ZERO, f, s.pages[f].ref - 1, root, vpn);
  }

  // page_remove deletes one key.  The frame goes back to the list exactly with its last reference.
  lemma RemoveSpec(s: Snap, root: nat, vpn: nat)
    requires Inv(s) && IsRoot(s, root) && vpn < NVPN
    ensures var s' := PageRemove(s, root, vpn);
      && Inv(s') && OneKey(s, s', root, vpn, None)
      && (View(s, root, vpn).Some? ==>
            var f := View(s, root, vpn).value.frame;
            f < |s.pages| && (s'.kinds[f].Free? <==> s.pages[f].ref == 1)
            && s'.pages[f].ref == s.pages[f].ref - 1)
  {
    if View(s, root, vpn).Some? {
      RemoveIs(s, root, vpn);
      ClearMapped(s, root, vpn);
      var t, f := LeafTable(s, root, vpn).value, View(s, root, vpn).value.frame;
      if s.pages[f].ref == 1 {
        var u := Leaf(s, t, Ptx(vpn), ZERO, f, 0);
        PushInv(u, f);
        OneKeyBefore(s, u, Push(u, f), root, vpn, None);
      }
    } else {
      LookupSpec(s, root, vpn);
    }
  }

  // What a removal leaves for the insertion that follows it.
  lemma RemoveLeaves(s: Snap, at: Loc, root: nat, vpn: nat, frame: nat)
    requires Reached(s, at, root, vpn) && View(s, root, vpn).Some? && View(s, root, vpn).value.frame != frame
    requires frame < |s.mem| && s.kinds[frame] == Data
    ensures Cleared(s, PageRemove(s, root, vpn), at, root, vpn, frame)
  {
    RemoveSpec(s, root, vpn);
    RemoveIs(s, root, vpn);
    ClearMapped(s, root, vpn);
    var t, f := LeafTable(s, root, vpn).value, View(s, root, vpn).value.frame;
    if s.pages[f].ref == 1 {
      var u := Leaf(s, t, Ptx(vpn), ZERO, f, 0);
      PushInv(u, f);
      assert IsRoot(u, root);
      SameTablesView(u, Push(u, f), root, vpn);
    }
  }

  predicate Insertable(s: Snap, frame: nat, perm: nat) {
    Wf(s) && frame < |s.mem| && perm < 4096 && s.kinds[frame] == Data && s.pages[frame].ref + 1 < REFMAX
  }

  // Storing a new reference in an empty slot.
  lemma StoreOk(s: Snap, at: Loc, root: nat, frame: nat, vpn: nat, perm: nat)
    requires Reached(s, at, root, vpn) && Insertable(s, frame, perm) && s.mem[at.table][at.slot] == ZERO
    ensures var to, s' := Entry(frame, WithP(perm)), Store(s, at, frame, Entry(frame, WithP(perm)));
      Inv(s') && OneKey(s, s', root, vpn, Some(to)) && s'.pages[frame].ref == s.pages[frame].ref + 1
  {
    var to := Entry(frame, WithP(perm));
    LeafInv(s, at.table, at.slot, to, frame, s.pages[frame].ref + 1);
    LeafViews(s, at.table, to, frame, s.pages[frame].ref + 1, root, vpn);
    assert Store(s, at, frame, to) == Leaf(s, at.table, at.slot, to, frame, s.pages[frame].ref + 1);
  }

  // Re-inserting the page that is mapped there only replaces the permissions.
  lemma InsertSame(s: Snap, s1: Snap, at: Loc, root: nat, frame: nat, vpn: nat, perm: nat)
    requires Reached(s, at, root, vpn) && Insertable(s, frame, perm)
    requires View(s, root, vpn).Some? && View(s, root, vpn).value.frame == frame
    requires Wf(s1) && |s1.mem| == |s.mem|
    ensures var to, s' := Entry(frame, WithP(perm)), InsertAt(s, s1, at, frame, perm);
      Inv(s') && OneKey(s, s', root, vpn, Some(to)) && s'.pages == s.pages && s'.chain == s.chain
  {
    MappedIsLive(s, root, vpn);
    var to := Entry(frame, WithP(perm));
    LeafInv(s, at.table, at.slot, to, frame, s.pages[frame].ref);
    LeafViews(s, at.table, to, frame, s.pages[frame].ref, root, vpn);
    assert Leaf(s, at.table, at.slot, to, frame, s.pages[frame].ref) == SetEntry(s, at.table, at.slot, to);
  }

  // Another page is mapped there: it is removed first.
  lemma InsertOver(s: Snap, s1: Snap, at: Loc, root: nat, frame: nat, vpn: nat, perm: nat)
    requires Reached(s, at, root, vpn) && Insertable(s, frame, perm)
    requires View(s, root, vpn).Some? && View(s, root, vpn).value.frame != frame
    requires Cleared(s, s1, at, root, vpn, frame)
    ensures var to, s' := Entry(frame, WithP(perm)), InsertAt(s, s1, at, frame, perm);
      Inv(s') && OneKey(s, s', root, vpn, Some(to)) && s'.pages[frame].ref == s.pages[frame].ref + 1
  {
    MappedIsLive(s, root, vpn);
    var to := Entry(frame, WithP(perm));
    StoreOk(s1, at, root, frame, vpn, perm);
    OneKeyTwice(s, s1, Store(s1, at, frame, to), root, vpn, None, Some(to));
  }

  // Nothing is mapped there.
  lemma InsertNew(s: Snap, s1: Snap, at: Loc, root: nat, frame: nat, vpn: nat, perm: nat)
    requires Reached(s, at, root, vpn) && Insertable(s, frame, perm) && View(s, root, vpn).None?
    requires Wf(s1) && |s1.mem| == |s.mem|
    ensures var to, s' := Entry(frame, WithP(perm)), InsertAt(s, s1, at, frame, perm);
      Inv(s') && OneKey(s, s', root, vpn, Some(to)) && s'.pages[frame].ref == s.pages[frame].ref + 1
  {
    assert EntryOk(s, at.table, at.slot);
    StoreOk(s, at, root, frame, vpn, perm);
  }

  lemma InsertAtSpec(s: Snap, at: Loc, root: nat, frame: nat, vpn: nat, perm: nat)
    requires Reached(s, at, root, vpn) && Insertable(s, frame, perm)
    ensures var s' := InsertAt(s, PageRemove(s, root, vpn), at, frame, perm);
      && Inv(s') && OneKey(s, s', root, vpn, Some(Entry(frame, WithP(perm))))
      && s'.pages[frame].ref == s.pages[frame].ref
           + (if View(s, root, vpn).Some? && View(s, root, vpn).value.frame == frame then 0 else 1)
  {
    var s1 := PageRemove(s, root, vpn);
    if View(s, root, vpn).None? {
      InsertNew(s, s1, at, root, frame, vpn, perm);
    } else if View(s, root, vpn).value.frame == frame {
      InsertSame(s, s1, at, root, frame, vpn, perm);
    } else {
      RemoveLeaves(s, at, root, vpn, frame);
      InsertOver(s, s1, at, root, frame, vpn, perm);
    }
  }

  // A creating walk that succeeds reaches the entry and leaves data frames alone.
  lemma WalkReaches(s: Snap, root: nat, vpn: nat)
    requires Inv(s) && IsRoot(s, root) && vpn < NVPN && |s.chain| >= Missing(s, root, vpn)
    ensures var w := Pml4eWalk(s, root, vpn, true);
      SameViews(s, w.s) && DataStays(s, w.s) && w.pte.Some? && Reached(w.s, w.pte.value, root, vpn)
  {
    Pml4eWalkOk(s, root, vpn, true);
    Pml4eWalkData(s, root, vpn, true);
    LeafTableOk(Pml4eWalk(s, root, vpn, true).s, root, vpn);
  }

  // page_insert sets one key, or changes no map at all: it fails exactly when the free list is shorter
  // than the number of tables it would need.
  lemma InsertSpec(s: Snap, root: nat, frame: nat, vpn: nat, perm: nat)
    requires Inv(s) && IsRoot(s, root) && vpn < NVPN && Insertable(s, frame, perm)
    ensures var s' := PageInsert(s, root, frame, vpn, perm);
      && Inv(s'.0)
      && (s'.1 <==> |s.chain| >= Missing(s, root, vpn))
      && (s'.1 ==>
            && OneKey(s, s'.0, root, vpn, Some(Entry(frame, WithP(perm))))
            && s'.0.pages[frame].ref == s.pages[frame].ref
                 + (if View(s, root, vpn).Some? && View(s, root, vpn).value.frame == frame then 0 else 1))
      && (!s'.1 ==> SameViews(s, s'.0))
  {
    Pml4eWalkOk(s, root, vpn, true);
    var w := Pml4eWalk(s, root, vpn, true);
    if |s.chain| >= Missing(s, root, vpn) {
      WalkReaches(s, root, vpn);
      InsertAtSpec(w.s, w.pte.value, root, frame, vpn, perm);
      OneKeyAfter(s, w.s, InsertAt(w.s, PageRemove(w.s, root, vpn), w.pte.value, frame, perm), root, vpn,
                  Some(Entry(frame, WithP(perm))));
    }
  }
}
