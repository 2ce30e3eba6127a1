// kern/pmap.c as code: the page array, the free list threaded through it, and the table pages, updated
// in place.  Every method leaves the state its specification function describes.
module PmapCode {
  import opened Wrappers
  import opened PageTable
  import opened PageWalk
  import opened Pmap

  class PhysicalMemory {
    const pages: array<PageInfo>
    const mem: array<seq<Entry>>       // pages viewed as tables
    var pageFreeList: Option<nat>
    var halted: bool
    ghost var kinds: seq<Kind>
    ghost var chain: seq<nat>

    ghost function S(): Snap
      reads this, pages, mem
    {
      Snap(pages[..], pageFreeList, mem[..], halted, kinds, chain)
    }

    ghost predicate Valid()
      reads this, pages, mem
    {
      Wf(S())
    }

    method Alloc(zero: bool) returns (page: Option<nat>)
      requires Valid()
      modifies this, pages, mem
      ensures Valid() && (S(), page) == PageAlloc(old(S()), zero)
    {
      page := None;
      if pageFreeList.Some? && pageFreeList.value < pages.Length {
        var f := pageFreeList.value;
        page := pageFreeList;
        pageFreeList := pages[f].link;
        pages[f] := pages[f].(link := None);
        if zero {
          mem[f] := Zeros();
        }
        kinds := kinds[f := Data];
        chain := if chain == [] then [] else chain[1..];
        assert S() == Pop(old(S()), f, zero);
      }
    }

    method InsertAtBegining(node: nat)
      requires Valid() && node < pages.Length
      modifies this, pages
      ensures Valid() && S() == Push(old(S()), node)
    {
      if pageFreeList == None {
        pageFreeList := Some(node);
      } else {
        pages[node] := pages[node].(link := pageFreeList);
        pageFreeList := Some(node);
      }
      kinds := kinds[node := Free];
      chain := [node] + chain;
    }

    method FreePage(pp: nat)
      requires Valid() && pp < pages.Length
      modifies this, pages
      ensures Valid() && S() == PageFree(old(S()), pp)
    {
      if pages[pp].ref != 0 {
        halted := true;
      } else if pages[pp].link != None {
        halted := true;
      } else {
        InsertAtBegining(pp);
      }
    }

    method Decref(pp: nat)
      requires Valid() && pp < pages.Length
      modifies this, pages
      ensures Valid() && S() == PageDecref(old(S()), pp)
    {
      pages[pp] := pages[pp].(ref := if pages[pp].ref == 0 then REFMAX - 1 else pages[pp].ref - 1);
      if pages[pp].ref == 0 {
        FreePage(pp);
      }
    }

    // The part the three walks share: the next table, allocated when absent and wanted.
    method NextTable(t: nat, i: nat, create: bool) returns (next: Option<nat>)
      requires Valid() && t < mem.Length && i < NPTENTRIES
      modifies this, pages, mem
      ensures Valid() && (S(), next) == Step(old(S()), t, i, create)
    {
      if mem[t][i] == ZERO && !create {
        return None;
      }
      if mem[t][i] == ZERO {
        var page := Alloc(true);
        if page.None? {
          return None;
        }
        ghost var a := S();
        kinds := kinds[page.value := Table(if Level(kinds[t]) > 0 then Level(kinds[t]) - 1 else 0, t, i)];
        pages[page.value] := pages[page.value].(ref := pages[page.value].ref + 1);
        mem[t] := mem[t][i := Entry(page.value, TABLEPERM)];
        assert S() == Link(a, t, i, page.value);
        return page;
      }
      if mem[t][i].frame < mem.Length {
        return Some(mem[t][i].frame);
      }
      halted := true;
      return None;
    }

    method WalkPgdir(pgdir: nat, vpn: nat, create: bool) returns (pte: Option<Loc>)
      requires Valid() && pgdir < mem.Length
      modifies this, pages, mem
      ensures Valid() && Walked(S(), pte) == PgdirWalk(old(S()), pgdir, vpn, create)
    {
      var table := NextTable(pgdir, Pdx(vpn), create);
      if table.None? {
        return None;
      }
      return Some(Loc(table.value, Ptx(vpn)));
    }

    // The clean-up at lines 652-656 is dead: the page it tests is the outer variable, hidden by the
    // declaration at line 637 and never assigned.
    method WalkPdpe(pdpe: nat, vpn: nat, create: bool) returns (pte: Option<Loc>)
      requires Valid() && pdpe < mem.Length
      modifies this, pages, mem
      ensures Valid() && Walked(S(), pte) == PdpeWalk(old(S()), pdpe, vpn, create)
    {
      var table := NextTable(pdpe, Pdpe(vpn), create);
      if table.None? {
        return None;
      }
      pte := WalkPgdir(table.value, vpn, create);
    }

    method WalkPml4e(pml4e: nat, vpn: nat, create: bool) returns (pte: Option<Loc>)
      requires Valid() && pml4e < mem.Length
      modifies this, pages, mem
      ensures Valid() && Walked(S(), pte) == Pml4eWalk(old(S()), pml4e, vpn, create)
    {
      var i := Pml4(vpn);
      var absent := mem[pml4e][i] == ZERO;
      var table := NextTable(pml4e, i, create);
      if table.None? {
        return None;
      }
      var page := if absent then table else None;
      pte := WalkPdpe(table.value, vpn, create);
      if pte == None && page != None {
        ghost var w := S();
        ghost var d := mem[page.value][Pdpe(vpn)];
        Decref(page.value);
        mem[pml4e] := mem[pml4e][i := ZERO];
        if d != ZERO && d.frame < mem.Length {
          kinds := kinds[d.frame := Lost];
        }
        assert S() == Drop(w, pml4e, i, page.value, Pdpe(vpn));
      }
    }

    method LookupPage(pml4e: nat, vpn: nat) returns (page: Option<nat>, pteStore: Option<Loc>)
      requires Valid() && pml4e < mem.Length
      modifies this, pages, mem
      ensures Valid() && Found(S(), page, pteStore) == PageLookup(old(S()), pml4e, vpn)
    {
      page, pteStore := None, None;
      var pte := WalkPml4e(pml4e, vpn, true);
      if pte.None? || pte.value.table >= mem.Length || pte.value.slot >= NPTENTRIES {
        return;
      }
      if Present(mem[pte.value.table][pte.value.slot]) {
        page := Some(mem[pte.value.table][pte.value.slot].frame);
        pteStore := pte;
      }
    }

    method RemovePage(pml4e: nat, vpn: nat)
      requires Valid() && pml4e < mem.Length
      modifies this, pages, mem
      ensures Valid() && S() == PageRemove(old(S()), pml4e, vpn)
    {
      var page, pte := LookupPage(pml4e, vpn);
      if page == None {
        return;
      }
      if page.value >= pages.Length || pte.None? || pte.value.table >= mem.Length || pte.value.slot >= NPTENTRIES {
        halted := true;
        return;
      }
      Decref(page.value);
      mem[pte.value.table] := mem[pte.value.table][pte.value.slot := ZERO];
    }

    method StoreNew(pte: Loc, pp: nat, perm: nat)
      requires Valid() && pte.table < mem.Length && pte.slot < NPTENTRIES && pp < pages.Length
      modifies this, pages, mem
      ensures Valid() && S() == Store(old(S()), pte, pp, Entry(pp, WithP(perm)))
    {
      mem[pte.table] := mem[pte.table][pte.slot := Entry(pp, WithP(perm))];
      pages[pp] := pages[pp].(ref := (pages[pp].ref + 1) % REFMAX);
    }

    method InsertPage(pml4e: nat, pp: nat, vpn: nat, perm: nat) returns (ok: bool)
      requires Valid() && pml4e < mem.Length && pp < pages.Length
      modifies this, pages, mem
      ensures Valid() && (S(), ok) == PageInsert(old(S()), pml4e, pp, vpn, perm)
    {
      var pte := WalkPml4e(pml4e, vpn, true);
      if pte.None? || pte.value.table >= mem.Length || pte.value.slot >= NPTENTRIES {
        return false;
      }
      var t, i := pte.value.table, pte.value.slot;
      var present := Present(mem[t][i]);
      if present && mem[t][i].frame == pp {
        mem[t] := mem[t][i := Entry(pp, WithP(perm))];
        return true;
      } else if present {
        RemovePage(pml4e, vpn);
      }
      StoreNew(pte.value, pp, perm);
      return true;
    }
  }
}
