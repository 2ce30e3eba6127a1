// When file_read and file_write succeed (fs/fs.c): exactly when the disk has a free block for every empty
// slot of the request, and one for the indirect block if that is missing too.
module FsSpace {
  import opened Wrappers
  import opened FsBlocks
  import opened FsFiles

  // Empty slots of f in [lo, hi).
  function EmptySlots(s: Fs, f: nat, lo: nat, hi: nat): nat
    requires Wf(s) && f < |s.files|
    decreases hi - lo
  {
    if lo >= hi then 0
    else (if lo < NSLOTS && Ref(s, f, lo) == 0 then 1 else 0) + EmptySlots(s, f, lo + 1, hi)
  }

  // Blocks it takes to fill them: past the direct slots also the indirect block.
  function SlotsNeed(s: Fs, f: nat, lo: nat, hi: nat): nat
    requires Wf(s) && f < |s.files|
  {
    EmptySlots(s, f, lo, hi) + if lo < hi && hi > NDIRECT && s.files[f].indirect == 0 then 1 else 0
  }

  // Blocks a request for the bytes [pos, end) takes, as far as a file can reach.
  function BlocksNeeded(s: Fs, f: nat, pos: nat, end: nat): nat
    requires Wf(s) && f < |s.files|
  {
    if pos >= end then 0 else SlotsNeed(s, f, Blk(pos), Min(Blk(end - 1) + 1, NSLOTS))
  }

  // n free blocks were taken, and none given back.
  ghost predicate Took(s: Fs, s': Fs, n: nat) {
    FreeBlocks(s') <= FreeBlocks(s) && |FreeBlocks(s')| + n == |FreeBlocks(s)|
  }

  lemma NoneFree(s: Fs)
    requires Inv(s)
    ensures FirstFree(s, 2).None? <==> FreeBlocks(s) == {}
    ensures FirstFree(s, 2).Some? ==> FirstFree(s, 2).value in FreeBlocks(s)
  {
    forall b: nat | b < |s.blocks| && s.free[b] ensures b >= 2 {
      assert OwnOk(s, b);
    }
    if FirstFree(s, 2).None? {
      assert forall b: nat :: b < |s.blocks| ==> !s.free[b];
      assert FreeBlocks(s) == {};
    } else {
      assert FirstFree(s, 2).value in FreeBlocks(s);
    }
  }

  lemma ClaimTakes(s: Fs, f: nat, k: nat, b: nat)
    requires Wf(s) && f < |s.files| && k <= PTR && b < |s.blocks| && b < WORD && s.free[b]
    ensures Took(s, Claim(s, f, k, b), 1)
  {
    var s' := Claim(s, f, k, b);
    assert s'.free == s.free[b := false];
    assert FreeBlocks(s') == FreeBlocks(s) - {b};
  }

  // ------------------------------------------------------------------
  // One slot
  // ------------------------------------------------------------------

  // file_get_block after the walk.
  lemma GetAtSpace(s: Fs, f: nat, k: nat)
    requires Inv(s) && |s.blocks| < WORD && f < |s.files| && k < NSLOTS
    ensures var g := GetAt(s, f, k);
      && (g.1.Got? <==> Ref(s, f, k) != 0 || |FreeBlocks(s)| >= 1)
      && (g.1.Got? ==> Took(s, g.0, if Ref(s, f, k) != 0 then 0 else 1))
      && (g.1.GetFailed? ==> g.1.error == NoDisk && FreeBlocks(g.0) == {})
  {
    assert RefOk(s, f, k);
    NoneFree(s);
    if Ref(s, f, k) == 0 && FirstFree(s, 2).Some? {
      ClaimTakes(s, f, k, FirstFree(s, 2).value);
    }
  }

  lemma WalkSpace(s: Fs, f: nat, k: nat)
    requires Inv(s) && |s.blocks| < WORD && f < |s.files| && k < NSLOTS && k < Ceil(s.files[f].size)
    ensures var w, n := BlockWalk(s, f, k, true), if k >= NDIRECT && s.files[f].indirect == 0 then 1 else 0;
      && (w.1.At? <==> |FreeBlocks(s)| >= n)
      && (w.1.At? ==> Took(s, w.0, n) && (k >= NDIRECT ==> w.0.files[f].indirect != 0)
                      && (k < NDIRECT ==> w.0 == s))
      && (w.1.Failed? ==> FreeBlocks(w.0) == {})
  {
    CeilSlot(s.files[f].size, k);
    assert RefOk(s, f, PTR);
    NoneFree(s);
    if k >= NDIRECT && s.files[f].indirect == 0 && FirstFree(s, 2).Some? {
      ClaimTakes(s, f, PTR, FirstFree(s, 2).value);
    }
  }

  lemma OneSlot(s: Fs, f: nat, k: nat)
    requires Wf(s) && f < |s.files| && k < NSLOTS
    ensures SlotsNeed(s, f, k, k + 1) ==
      (if Ref(s, f, k) == 0 then 1 else 0) + (if k >= NDIRECT && s.files[f].indirect == 0 then 1 else 0)
  {
    assert EmptySlots(s, f, k + 1, k + 1) == 0;
  }

  lemma TookTrans(a: Fs, b: Fs, c: Fs, m: nat, n: nat)
    requires Took(a, b, m) && Took(b, c, n)
    ensures Took(a, c, m + n)
  {
  }

  lemma GetBlockSpace(s: Fs, f: nat, k: nat)
    requires Inv(s) && |s.blocks| < WORD && f < |s.files| && k < NSLOTS && k < Ceil(s.files[f].size)
    requires FreshIndirect(s, f, k)
    ensures var g, n := GetBlock(s, f, k), SlotsNeed(s, f, k, k + 1);
      && (g.1.Got? <==> |FreeBlocks(s)| >= n)
      && (g.1.Got? ==> Took(s, g.0, n) && (g.0.files[f].indirect == 0 <==> k < NDIRECT && s.files[f].indirect == 0))
      && (g.1.GetFailed? ==> g.1.error == NoDisk && FreeBlocks(g.0) == {})
  {
    OneSlot(s, f, k);
    WalkSpace(s, f, k);
    WalkInv(s, f, k, true);
    var w := BlockWalk(s, f, k, true);
    if w.1.At? {
      GetAtSpace(w.0, f, k);
      GetAtIndirect(w.0, f, k);
      if GetAt(w.0, f, k).1.Got? {
        TookTrans(s, w.0, GetAt(w.0, f, k).0, if k >= NDIRECT && s.files[f].indirect == 0 then 1 else 0,
                  if Ref(w.0, f, k) != 0 then 0 else 1);
      }
    }
  }

  lemma GetAtIndirect(s: Fs, f: nat, k: nat)
    requires Wf(s) && |s.blocks| < WORD && f < |s.files| && k < NSLOTS
    ensures GetAt(s, f, k).0.files[f].indirect == s.files[f].indirect
  {
  }

  lemma {:induction false} EmptySame(s: Fs, s': Fs, f: nat, lo: nat, hi: nat)
    requires Wf(s) && Wf(s') && f < |s.files| && |s'.files| == |s.files|
    requires forall l: nat :: lo <= l < NSLOTS ==> Ref(s', f, l) == Ref(s, f, l)
    ensures EmptySlots(s', f, lo, hi) == EmptySlots(s, f, lo, hi)
    decreases hi - lo
  {
    if lo < hi {
      EmptySame(s, s', f, lo + 1, hi);
    }
  }

  // ------------------------------------------------------------------
  // One iteration
  // ------------------------------------------------------------------

  // Where the call ends: past the last slot a file can have, or not.
  predicate InReach(pos: nat, end: nat) {
    pos >= end || end <= NSLOTS * BLKSIZE
  }

  // An iteration stores at most into the block it got.
  ghost predicate KeepsSlots(g: Fs, s': Fs, f: nat)
    requires Wf(g) && f < |g.files|
  {
    && Wf(s') && s'.free == g.free && s'.files == g.files
    && forall l: nat :: l < NSLOTS ==> Ref(s', f, l) == Ref(g, f, l)
  }

  // What one iteration of a request leaves of its need.
  lemma NeedSplits(s: Fs, s': Fs, f: nat, pos: nat, end: nat)
    requires Inv(s) && |s.blocks| < WORD && f < |s.files| && pos < end <= s.files[f].size && Blk(pos) < NSLOTS
    requires FreshIndirect(s, f, Blk(pos)) && GetBlock(s, f, Blk(pos)).1.Got?
    requires KeepsSlots(GetBlock(s, f, Blk(pos)).0, s', f)
    ensures Wf(s') && f < |s'.files|
    ensures BlocksNeeded(s, f, pos, end) ==
      SlotsNeed(s, f, Blk(pos), Blk(pos) + 1) + BlocksNeeded(s', f, pos + Chunk(pos, end), end)
  {
    var k, mid, g := Blk(pos), pos + Chunk(pos, end), GetBlock(s, f, Blk(pos)).0;
    InsideFile(s.files[f].size, pos);
    CeilSlot(s.files[f].size, k);
    GetBlockInv(s, f, k);
    GetBlockSpace(s, f, k);
    SlotsOf(pos, end);
    hide GetBlock, Inv, Chunk, Blk, FreshIndirect, Ref, SlotsNeed, FreeBlocks, Took;
    EmptySame(s, s', f, k + 1, Min(Blk(end - 1) + 1, NSLOTS));
    SlotsSplit(s, s', f, k, Min(Blk(end - 1) + 1, NSLOTS));
  }

  // A request's chunks and its slots.
  lemma SlotsOf(pos: nat, end: nat)
    requires pos < end
    ensures Blk(pos) <= Blk(end - 1)
    ensures pos + Chunk(pos, end) < end ==> Blk(pos + Chunk(pos, end)) == Blk(pos) + 1 <= Blk(end - 1)
    ensures pos + Chunk(pos, end) == end ==> Blk(end - 1) == Blk(pos)
    ensures Blk(end - 1) < NSLOTS <==> end <= NSLOTS * BLKSIZE
  {
    BlkOff(pos);
    BlkOff(end - 1);
    BlkOff(pos + Chunk(pos, end));
  }

  lemma SlotsSplit(s: Fs, s': Fs, f: nat, k: nat, hi: nat)
    requires Wf(s) && Wf(s') && f < |s.files| && |s'.files| == |s.files| && k < hi <= NSLOTS
    requires EmptySlots(s', f, k + 1, hi) == EmptySlots(s, f, k + 1, hi)
    requires s'.files[f].indirect == 0 <==> k < NDIRECT && s.files[f].indirect == 0
    ensures SlotsNeed(s, f, k, hi) == SlotsNeed(s, f, k, k + 1) + SlotsNeed(s', f, k + 1, hi)
  {
    assert EmptySlots(s, f, k + 1, k + 1) == 0;
  }

  // How a request must end: n blocks needed.
  ghost predicate Outcome(s: Fs, s': Fs, failed: Option<Error>, n: nat, inReach: bool) {
    && (failed == None <==> n <= |FreeBlocks(s)| && inReach)
    && (failed == Some(Invalid) <==> n <= |FreeBlocks(s)| && !inReach)
    && (failed == Some(NoDisk) <==> n > |FreeBlocks(s)|)
    && (n <= |FreeBlocks(s)| ==> Took(s, s', n))
    && (n > |FreeBlocks(s)| ==> FreeBlocks(s') == {})
  }

  lemma OutcomeComposes(a: Fs, b: Fs, c: Fs, failed: Option<Error>, m: nat, n: nat, inReach: bool)
    requires m <= |FreeBlocks(a)| && Took(a, b, m) && Outcome(b, c, failed, n, inReach)
    ensures Outcome(a, c, failed, m + n, inReach)
  {
    if n <= |FreeBlocks(b)| {
      TookTrans(a, b, c, m, n);
    }
  }

  // The iteration that fails.
  lemma StepFails(s: Fs, f: nat, pos: nat, end: nat)
    requires Inv(s) && |s.blocks| < WORD && f < |s.files| && pos < end <= s.files[f].size
    requires FreshIndirect(s, f, Blk(pos)) && GetBlock(s, f, Blk(pos)).1.GetFailed?
    ensures var g := GetBlock(s, f, Blk(pos));
      Outcome(s, g.0, Some(g.1.error), BlocksNeeded(s, f, pos, end), InReach(pos, end))
  {
    var k := Blk(pos);
    SlotsOf(pos, end);
    InsideFile(s.files[f].size, pos);
    CeilSlot(s.files[f].size, k);
    if k < NSLOTS {
      GetBlockSpace(s, f, k);
      NeedGrows(s, f, k, Min(Blk(end - 1) + 1, NSLOTS));
    }
  }

  lemma {:induction false} EmptyGrows(s: Fs, f: nat, lo: nat, mid: nat, hi: nat)
    requires Wf(s) && f < |s.files| && lo <= mid <= hi
    ensures EmptySlots(s, f, lo, mid) <= EmptySlots(s, f, lo, hi)
    decreases mid - lo
  {
    if lo < mid {
      EmptyGrows(s, f, lo + 1, mid, hi);
    }
  }

  lemma NeedGrows(s: Fs, f: nat, k: nat, hi: nat)
    requires Wf(s) && f < |s.files| && k < hi
    ensures SlotsNeed(s, f, k, k + 1) <= SlotsNeed(s, f, k, hi)
  {
    EmptyGrows(s, f, k, k + 1, hi);
  }

  // The iteration that succeeds.
  lemma StepTakes(s: Fs, s': Fs, f: nat, pos: nat, end: nat)
    requires Inv(s) && |s.blocks| < WORD && f < |s.files| && pos < end <= s.files[f].size
    requires FreshIndirect(s, f, Blk(pos)) && GetBlock(s, f, Blk(pos)).1.Got?
    requires KeepsSlots(GetBlock(s, f, Blk(pos)).0, s', f)
    ensures Blk(pos) < NSLOTS && SlotsNeed(s, f, Blk(pos), Blk(pos) + 1) <= |FreeBlocks(s)|
    ensures Took(s, s', SlotsNeed(s, f, Blk(pos), Blk(pos) + 1))
  {
    var k := Blk(pos);
    InsideFile(s.files[f].size, pos);
    CeilSlot(s.files[f].size, k);
    hide SlotsNeed, FreshIndirect, GetBlock;
    GetBlockInv(s, f, k);
    GetBlockSpace(s, f, k);
    assert FreeBlocks(s') == FreeBlocks(GetBlock(s, f, k).0);
  }

  lemma ReachStays(pos: nat, end: nat)
    requires pos < end && Blk(pos) < NSLOTS
    ensures InReach(pos + Chunk(pos, end), end) <==> InReach(pos, end)
  {
    SlotsOf(pos, end);
  }

  // With the rest of the request after it.
  lemma StepGoesOn(s: Fs, s': Fs, c: Fs, failed: Option<Error>, f: nat, pos: nat, end: nat)
    requires Inv(s) && |s.blocks| < WORD && f < |s.files| && pos < end <= s.files[f].size
    requires FreshIndirect(s, f, Blk(pos)) && GetBlock(s, f, Blk(pos)).1.Got?
    requires KeepsSlots(GetBlock(s, f, Blk(pos)).0, s', f)
    requires var mid := pos + Chunk(pos, end); Outcome(s', c, failed, BlocksNeeded(s', f, mid, end), InReach(mid, end))
    ensures Wf(s) && Outcome(s, c, failed, BlocksNeeded(s, f, pos, end), InReach(pos, end))
  {
    hide *;
    InvWf(s);
    var k, mid := Blk(pos), pos + Chunk(pos, end);
    StepTakes(s, s', f, pos, end);
    NeedSplits(s, s', f, pos, end);
    ReachStays(pos, end);
    OutcomeComposes(s, s', c, failed, SlotsNeed(s, f, k, k + 1), BlocksNeeded(s', f, mid, end), InReach(mid, end));
  }

  lemma NothingAsked(s: Fs, f: nat, pos: nat, end: nat)
    requires Wf(s) && f < |s.files| && pos >= end
    ensures Outcome(s, s, None, BlocksNeeded(s, f, pos, end), InReach(pos, end))
  {
  }

  // ------------------------------------------------------------------
  // file_read
  // ------------------------------------------------------------------

  function ReadError(r: ReadResult): Option<Error> {
    if r.ReadFailed? then Some(r.error) else None
  }

  // The error of an iteration is that of file_get_block.
  lemma ReadStepIs(s: Fs, f: nat, pos: nat, end: nat)
    requires Inv(s) && |s.blocks| < WORD && f < |s.files| && pos < end <= s.files[f].size && FreshIndirect(s, f, Blk(pos))
    ensures var g, r := GetBlock(s, f, Blk(pos)), ReadStep(s, f, pos, end);
      && r.0 == g.0 && (r.1.Read? <==> g.1.Got?) && (g.1.GetFailed? ==> r.1 == ReadFailed(g.1.error))
      && KeepsSlots(g.0, r.0, f)
  {
    InsideFile(s.files[f].size, pos);
    GetBlockInv(s, f, Blk(pos));
  }

  lemma {:induction false} ReadLoopOutcome(s: Fs, f: nat, pos: nat, end: nat)
    requires Inv(s) && |s.blocks| < WORD && f < |s.files| && pos <= end <= s.files[f].size && FreshBefore(s, f, pos, end)
    ensures Wf(s) && var r := ReadLoop(s, f, pos, end);
      Outcome(s, r.0, ReadError(r.1), BlocksNeeded(s, f, pos, end), InReach(pos, end))
    decreases end - pos
  {
    hide *;
    InvWf(s);
    if pos == end {
      ReadsNothing(s, f, pos, end);
      ReadNone(s, f, pos, end);
      NothingAsked(s, f, pos, end);
    } else {
      var g, mid := ReadStep(s, f, pos, end), pos + Chunk(pos, end);
      FreshReadStep(s, f, pos, end);
      ReadStepSpec(s, f, pos, end);
      ReadStepIs(s, f, pos, end);
      ReadUnrolled(s, f, pos, end);
      ReadFails(s, g, f, pos, mid, end);
      ReadErrors(g.1);
      if g.1.Read? {
        ReadLoopOutcome(g.0, f, mid, end);
        var rest := ReadLoop(g.0, f, mid, end);
        StepGoesOn(s, g.0, rest.0, ReadError(rest.1), f, pos, end);
        ReadErrors(rest.1);
        ReadErrors(ReadLoop(s, f, pos, end).1);
      } else {
        StepFails(s, f, pos, end);
      }
    }
  }

  lemma ReadErrors(r: ReadResult)
    ensures ReadError(r) == if r.ReadFailed? then Some(r.error) else None
  {
  }

  lemma ReadNone(s: Fs, f: nat, pos: nat, end: nat)
    requires Wf(s) && |s.blocks| < WORD && f < |s.files| && pos >= end
    ensures ReadLoop(s, f, pos, end).0 == s && ReadError(ReadLoop(s, f, pos, end).1) == None
  {
  }

  // file_read: the bytes of the request clipped at the size of the file, or an error, exactly as the free
  // blocks suffice or not for the holes it meets.
  lemma FileReadOutcome(s: Fs, f: nat, count: nat, offset: nat)
    requires Inv(s) && |s.blocks| < WORD && f < |s.files|
    requires FreshBefore(s, f, offset, ReadEnd(s, f, count, offset))
    ensures var r, size := FileRead(s, f, count, offset), s.files[f].size;
      var length := if offset >= size then 0 else if offset + count <= size then count else size - offset;
      var n, inReach := BlocksNeeded(s, f, offset, offset + length), length == 0 || offset + length <= NSLOTS * BLKSIZE;
      && (r.1.Read? <==> n <= |FreeBlocks(s)| && inReach)
      && (r.1 == ReadFailed(Invalid) <==> n <= |FreeBlocks(s)| && !inReach)
      && (r.1 == ReadFailed(NoDisk) <==> n > |FreeBlocks(s)|)
      && (n <= |FreeBlocks(s)| ==> Took(s, r.0, n))
      && (n > |FreeBlocks(s)| ==> FreeBlocks(r.0) == {})
      && (r.1.Read? ==> |r.1.bytes| == length && HasBytes(r.0, f, offset, r.1.bytes))
  {
    hide *;
    InvWf(s);
    var end, r := ReadEnd(s, f, count, offset), FileRead(s, f, count, offset);
    ReadEndIs(s, f, count, offset);
    FileReadSpec(s, f, count, offset);
    ReadSpecIs(s, r, f, offset, end);
    FileReadIs(s, f, count, offset);
    OutcomeOfRead(s, r, BlocksNeeded(s, f, offset, end), InReach(offset, end));
    ReachOf(offset, end);
  }

  lemma ReadEndIs(s: Fs, f: nat, count: nat, offset: nat)
    requires f < |s.files|
    ensures var size := s.files[f].size;
      ReadEnd(s, f, count, offset) ==
        offset + if offset >= size then 0 else if offset + count <= size then count else size - offset
  {
  }

  lemma ReadSpecIs(s: Fs, r: (Fs, ReadResult), f: nat, pos: nat, end: nat)
    requires Wf(s) && f < |s.files| && ReadSpec(s, r, f, pos, end)
    ensures Wf(r.0) && f < |r.0.files| && (r.1.Read? ==> |r.1.bytes| == end - pos && HasBytes(r.0, f, pos, r.1.bytes))
  {
  }

  lemma FileReadIs(s: Fs, f: nat, count: nat, offset: nat)
    requires Inv(s) && |s.blocks| < WORD && f < |s.files|
    requires FreshBefore(s, f, offset, ReadEnd(s, f, count, offset))
    ensures Wf(s) && var r, end := FileRead(s, f, count, offset), ReadEnd(s, f, count, offset);
      Outcome(s, r.0, ReadError(r.1), BlocksNeeded(s, f, offset, end), InReach(offset, end))
  {
    var end := ReadEnd(s, f, count, offset);
    hide BlocksNeeded, Outcome, Inv, InReach;
    InvWf(s);
    if offset < s.files[f].size {
      ReadLoopOutcome(s, f, offset, end);
    } else {
      NothingAsked(s, f, offset, end);
    }
  }

  lemma OutcomeOfRead(s: Fs, r: (Fs, ReadResult), n: nat, inReach: bool)
    requires Outcome(s, r.0, ReadError(r.1), n, inReach)
    ensures r.1.Read? <==> n <= |FreeBlocks(s)| && inReach
    ensures r.1 == ReadFailed(Invalid) <==> n <= |FreeBlocks(s)| && !inReach
    ensures r.1 == ReadFailed(NoDisk) <==> n > |FreeBlocks(s)|
    ensures n <= |FreeBlocks(s)| ==> Took(s, r.0, n)
    ensures n > |FreeBlocks(s)| ==> FreeBlocks(r.0) == {}
  {
  }

  // ------------------------------------------------------------------
  // file_write
  // ------------------------------------------------------------------

  function WriteError(r: WriteResult): Option<Error> {
    if r.WriteFailed? then Some(r.error) else None
  }

  lemma WriteStepIs(s: Fs, f: nat, data: seq<bv8>, pos: nat, end: nat)
    requires Inv(s) && |s.blocks| < WORD && f < |s.files| && pos < end <= s.files[f].size && FreshIndirect(s, f, Blk(pos))
    requires |data| == Chunk(pos, end)
    ensures var g, r := GetBlock(s, f, Blk(pos)), WriteStep(s, f, data, pos);
      && (r.1.Wrote? <==> g.1.Got?) && (g.1.GetFailed? ==> r == (g.0, WriteFailed(g.1.error)))
      && (g.1.Got? ==> KeepsSlots(g.0, r.0, f))
  {
    InsideFile(s.files[f].size, pos);
    GetBlockInv(s, f, Blk(pos));
    var g := GetBlock(s, f, Blk(pos));
    if g.1.Got? {
      forall l: nat | l < NSLOTS ensures Ref(WriteStep(s, f, data, pos).0, f, l) == Ref(g.0, f, l) {
        PokeRefs(g.0, f, Blk(pos), Off(pos), data, f, l);
      }
    }
  }

  lemma {:induction false} WriteLoopOutcome(s: Fs, f: nat, buf: seq<bv8>, pos: nat, end: nat)
    requires Inv(s) && |s.blocks| < WORD && f < |s.files| && pos <= end <= s.files[f].size && |buf| == end - pos
    requires FreshBefore(s, f, pos, end)
    ensures Wf(s) && var r := WriteLoop(s, f, buf, pos, end);
      Outcome(s, r.0, WriteError(r.1), BlocksNeeded(s, f, pos, end), InReach(pos, end))
    decreases end - pos
  {
    hide *;
    InvWf(s);
    WriteErrors(WriteLoop(s, f, buf, pos, end).1);
    if pos == end {
      WriteNone(s, f, buf, pos, end);
      NothingAsked(s, f, pos, end);
    } else {
      var x, y, mid := buf[..Chunk(pos, end)], buf[Chunk(pos, end)..], pos + Chunk(pos, end);
      var g := WriteStep(s, f, x, pos);
      FreshWriteStep(s, f, x, pos, end);
      WriteStepSpec(s, f, x, pos);
      WriteStepIs(s, f, x, pos, end);
      WriteUnrolled(s, f, buf, pos, end);
      if g.1.Wrote? {
        WriteKeeps(s, g, f, x, pos, mid);
        WriteLoopOutcome(g.0, f, y, mid, end);
        var rest := WriteLoop(g.0, f, y, mid, end);
        StepGoesOn(s, g.0, rest.0, WriteError(rest.1), f, pos, end);
      } else {
        StepFails(s, f, pos, end);
      }
    }
  }

  lemma WriteErrors(r: WriteResult)
    ensures WriteError(r) == if r.WriteFailed? then Some(r.error) else None
  {
  }

  lemma WriteNone(s: Fs, f: nat, buf: seq<bv8>, pos: nat, end: nat)
    requires Wf(s) && |s.blocks| < WORD && f < |s.files| && pos == end && |buf| == end - pos
    ensures WriteLoop(s, f, buf, pos, end).0 == s && WriteError(WriteLoop(s, f, buf, pos, end).1) == None
  {
  }

  lemma WriteKeeps(s: Fs, g: (Fs, WriteResult), f: nat, x: seq<bv8>, pos: nat, mid: nat)
    requires Wf(s) && f < |s.files| && WriteSpec(s, g, f, x, pos, mid)
    ensures Inv(g.0) && |g.0.files| == |s.files| && g.0.files[f].size == s.files[f].size
  {
  }

  // The file's size plays no part in what a request needs.
  lemma NeedSame(s: Fs, s1: Fs, f: nat, pos: nat, end: nat)
    requires Wf(s) && f < |s.files| && exists n :: s1 == s.(files := s.files[f := s.files[f].(size := n)])
    ensures Wf(s1) && BlocksNeeded(s1, f, pos, end) == BlocksNeeded(s, f, pos, end)
    ensures FreeBlocks(s1) == FreeBlocks(s)
  {
    if pos < end {
      EmptySame(s, s1, f, Blk(pos), Min(Blk(end - 1) + 1, NSLOTS));
    }
  }

  // file_write succeeds exactly when the request ends within reach and the free blocks suffice for the
  // slots of the request that are empty, and for the indirect block if it is needed and missing; it then
  // takes just those.  Short of blocks it takes every one there is.
  lemma FileWriteOutcome(s: Fs, f: nat, buf: seq<bv8>, offset: nat)
    requires Inv(s) && |s.blocks| < WORD && f < |s.files| && FreshBefore(s, f, offset, offset + |buf|)
    ensures var r, end := FileWrite(s, f, buf, offset), offset + |buf|;
      var n, inReach := BlocksNeeded(s, f, offset, end), buf == [] || end <= NSLOTS * BLKSIZE;
      && (r.1.Wrote? <==> n <= |FreeBlocks(s)| && inReach)
      && (r.1 == WriteFailed(Invalid) <==> n <= |FreeBlocks(s)| && !inReach)
      && (r.1 == WriteFailed(NoDisk) <==> n > |FreeBlocks(s)|)
      && (n <= |FreeBlocks(s)| ==> Took(s, r.0, n))
      && (n > |FreeBlocks(s)| ==> FreeBlocks(r.0) == {})
  {
    hide *;
    InvWf(s);
    var end := offset + |buf|;
    var s1, r := Extended(s, f, end), FileWrite(s, f, buf, offset);
    WritesExtended(s, f, buf, offset);
    FreshSame(s, s1, f, offset, end);
    NeedSame(s, s1, f, offset, end);
    WriteLoopOutcome(s1, f, buf, offset, end);
    OutcomeOfWrite(s1, r, BlocksNeeded(s1, f, offset, end), InReach(offset, end));
    TookSame(s, s1, r.0);
    ReachOf(offset, end);
  }

  lemma OutcomeOfWrite(s: Fs, r: (Fs, WriteResult), n: nat, inReach: bool)
    requires Outcome(s, r.0, WriteError(r.1), n, inReach)
    ensures r.1.Wrote? <==> n <= |FreeBlocks(s)| && inReach
    ensures r.1 == WriteFailed(Invalid) <==> n <= |FreeBlocks(s)| && !inReach
    ensures r.1 == WriteFailed(NoDisk) <==> n > |FreeBlocks(s)|
    ensures n <= |FreeBlocks(s)| ==> Took(s, r.0, n)
    ensures n > |FreeBlocks(s)| ==> FreeBlocks(r.0) == {}
  {
  }

  lemma TookSame(s: Fs, s1: Fs, s2: Fs)
    requires FreeBlocks(s1) == FreeBlocks(s)
    ensures forall n: nat :: Took(s1, s2, n) ==> Took(s, s2, n)
  {
  }

  lemma ReachOf(pos: nat, end: nat)
    ensures InReach(pos, end) <==> pos >= end || end <= NSLOTS * BLKSIZE
  {
  }

  // ------------------------------------------------------------------
  // Without holes
  // ------------------------------------------------------------------

  lemma {:induction false} NoneEmpty(s: Fs, f: nat, lo: nat, hi: nat)
    requires Wf(s) && f < |s.files| && forall l: nat :: lo <= l < hi && l < NSLOTS ==> Ref(s, f, l) != 0
    ensures EmptySlots(s, f, lo, hi) == 0
    decreases hi - lo
  {
    if lo < hi {
      NoneEmpty(s, f, lo + 1, hi);
    }
  }

  // Every slot of the request holds some byte of it.
  lemma SlotHasByte(s: Fs, f: nat, pos: nat, end: nat, l: nat)
    requires Wf(s) && f < |s.files| && NoHoles(s, f, pos, end) && pos < end && Blk(pos) <= l <= Blk(end - 1)
    ensures l < NSLOTS && Ref(s, f, l) != 0
  {
    var p := Max(pos, l * BLKSIZE);
    BlkOff(pos);
    BlkOff(end - 1);
    BlkOff(p);
    assert pos <= p < end && Blk(p) == l;
    assert ByteAt(s, f, p).Some?;
  }

  lemma NoHolesNeedNothing(s: Fs, f: nat, pos: nat, end: nat)
    requires Wf(s) && f < |s.files| && NoHoles(s, f, pos, end)
    ensures BlocksNeeded(s, f, pos, end) == 0 && InReach(pos, end)
  {
    if pos < end {
      SlotsOf(pos, end);
      SlotHasByte(s, f, pos, end, Blk(end - 1));
      forall l: nat | Blk(pos) <= l <= Blk(end - 1) ensures l < NSLOTS && Ref(s, f, l) != 0 {
        SlotHasByte(s, f, pos, end, l);
      }
      hide NoHoles, Blk;
      NoneEmpty(s, f, Blk(pos), Min(Blk(end - 1) + 1, NSLOTS));
    }
  }

  // Writing where no byte is a hole always succeeds and takes no block.
  lemma WriteWithoutHoles(s: Fs, f: nat, buf: seq<bv8>, offset: nat)
    requires Inv(s) && |s.blocks| < WORD && f < |s.files| && NoHoles(s, f, offset, offset + |buf|)
    ensures FileWrite(s, f, buf, offset).1.Wrote? && FreeBlocks(FileWrite(s, f, buf, offset).0) == FreeBlocks(s)
  {
    FreshWithoutHoles(s, f, offset, offset + |buf|);
    NoHolesNeedNothing(s, f, offset, offset + |buf|);
    FileWriteOutcome(s, f, buf, offset);
    var s' := FileWrite(s, f, buf, offset).0;
    SubsetEqual(FreeBlocks(s'), FreeBlocks(s));
  }

  lemma SubsetEqual(a: set<nat>, b: set<nat>)
    requires a <= b && |a| == |b|
    ensures a == b
  {
    if a != b {
      var x :| x in b && x !in a;
      assert a <= b - {x};
      SubsetSize(a, b - {x});
    }
  }

  lemma {:induction false} SubsetSize(a: set<nat>, b: set<nat>)
    requires a <= b
    ensures |a| <= |b|
    decreases |a|
  {
    if a != {} {
      var x :| x in a;
      SubsetSize(a - {x}, b - {x});
    }
  }
}
