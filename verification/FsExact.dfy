// Exactly when file_read and file_write keep block ownership: the fresh indirect block of fs/fs.c:184-195,
// followed through whole calls.
module FsExact {
  import opened Wrappers
  import opened FsBlocks
  import opened FsFiles

  // ------------------------------------------------------------------
  // Once lost, ownership stays lost
  // ------------------------------------------------------------------

  lemma DriftReadStep(s: Fs, t: Fs, f: nat, b: nat, pos: nat, end: nat)
    requires Stray(s, f, b) && Drift(s, t, f, b) && NDIRECT <= Blk(pos) && pos < end
    ensures Wf(t) && |t.blocks| < WORD && f < |t.files| && Drift(s, ReadStep(t, f, pos, end).0, f, b)
  {
    DriftGet(s, t, f, b, Blk(pos));
  }

  lemma BlkGrows(pos: nat, end: nat)
    requires pos < end && NDIRECT <= Blk(pos)
    ensures NDIRECT <= Blk(pos + Chunk(pos, end))
    ensures pos + Chunk(pos, end) < end ==> Blk(pos) < Blk(pos + Chunk(pos, end))
  {
    BlkOff(pos);
    BlkOff(pos + Chunk(pos, end));
  }

  lemma DriftFits(s: Fs, t: Fs, f: nat, b: nat)
    requires Stray(s, f, b) && Drift(s, t, f, b)
    ensures Inv(s) && f < |s.files| && b < |s.blocks| && Wf(t) && |t.blocks| < WORD && f < |t.files|
  {
  }

  lemma {:induction false} DriftReadLoop(s: Fs, t: Fs, f: nat, b: nat, pos: nat, end: nat)
    requires Stray(s, f, b) && Drift(s, t, f, b) && NDIRECT <= Blk(pos)
    ensures Wf(t) && |t.blocks| < WORD && f < |t.files| && Drift(s, ReadLoop(t, f, pos, end).0, f, b)
    decreases end - pos
  {
    hide *;
    DriftFits(s, t, f, b);
    if pos < end {
      DriftReadStep(s, t, f, b, pos, end);
      BlkGrows(pos, end);
      ReadUnrolled(t, f, pos, end);
      DriftReadLoop(s, ReadStep(t, f, pos, end).0, f, b, pos + Chunk(pos, end), end);
    } else {
      ReadsNoBlock(t, f, pos, end);
    }
  }

  lemma ReadsNoBlock(t: Fs, f: nat, pos: nat, end: nat)
    requires Wf(t) && |t.blocks| < WORD && f < |t.files| && pos >= end
    ensures ReadLoop(t, f, pos, end).0 == t
  {
  }

  // A store into a block that a slot of f names, other than the indirect block itself.
  lemma DriftPoke(s: Fs, t: Fs, f: nat, b: nat, x: nat, i: nat, off: nat, data: seq<bv8>)
    requires Stray(s, f, b) && Drift(s, t, f, b) && i < NINDIRECT && WordAt(t, b, i) == x
    requires x != b && x < |s.blocks| && off + |data| <= BLKSIZE
    ensures Wf(t) && x < |t.blocks| && Drift(s, Poke(t, x, off, data), f, b)
  {
    var t' := Poke(t, x, off, data);
    assert t'.blocks[b] == t.blocks[b];
    forall c: nat | c < |s.blocks| && s.free[c] && !t'.free[c] && c != b ensures TakenSince(s, t', b, c) {
      var j: nat :| j < NINDIRECT && WordAt(s, b, j) == 0 && WordAt(t, b, j) == c;
      assert WordAt(t', b, j) == c;
    }
    forall g: nat | g < |s.files| && g != f && s.files[g].indirect != 0 ensures OtherKept(s, t', b, g) {
      if s.files[g].indirect == x {
        assert WordAt(t', b, i) == x;
      } else {
        DriftOther(s, t, t', f, b, g);
      }
    }
  }

  // No slot a call over slots lo to hi writes through holds the number of the indirect block.
  predicate NotOwn(s: Fs, b: nat, lo: nat, hi: nat)
    requires Wf(s) && b < |s.blocks|
  {
    forall i: nat :: i < NINDIRECT && lo <= i + NDIRECT <= hi ==> WordAt(s, b, i) != b
  }

  lemma DriftWriteStep(s: Fs, t: Fs, f: nat, b: nat, data: seq<bv8>, pos: nat, hi: nat)
    requires Stray(s, f, b) && Drift(s, t, f, b) && NDIRECT <= Blk(pos) <= hi && NotOwn(s, b, Blk(pos), hi)
    requires Off(pos) + |data| <= BLKSIZE
    ensures Wf(t) && |t.blocks| < WORD && f < |t.files| && Drift(s, WriteStep(t, f, data, pos).0, f, b)
  {
    DriftGet(s, t, f, b, Blk(pos));
    var g := GetBlock(t, f, Blk(pos));
    if g.1.Got? && g.1.block < |t.blocks| {
      DriftPoke(s, g.0, f, b, g.1.block, Blk(pos) - NDIRECT, Off(pos), data);
    }
  }

  lemma SlotsLeft(s: Fs, b: nat, pos: nat, end: nat)
    requires Wf(s) && b < |s.blocks| && pos < end && NDIRECT <= Blk(pos) && NotOwn(s, b, Blk(pos), Blk(end - 1))
    ensures Blk(pos) <= Blk(end - 1) && NDIRECT <= Blk(pos + Chunk(pos, end))
    ensures pos + Chunk(pos, end) < end ==> NotOwn(s, b, Blk(pos + Chunk(pos, end)), Blk(end - 1))
  {
    BlkGrows(pos, end);
    BlkOff(pos);
    BlkOff(end - 1);
  }

  lemma {:induction false} DriftWriteLoop(s: Fs, t: Fs, f: nat, b: nat, buf: seq<bv8>, pos: nat, end: nat)
    requires Stray(s, f, b) && Drift(s, t, f, b) && NDIRECT <= Blk(pos)
    requires |buf| == end - pos && (pos < end ==> NotOwn(s, b, Blk(pos), Blk(end - 1)))
    ensures Wf(t) && |t.blocks| < WORD && f < |t.files| && Drift(s, WriteLoop(t, f, buf, pos, end).0, f, b)
    decreases end - pos
  {
    hide *;
    DriftFits(s, t, f, b);
    InvWf(s);
    if pos < end {
      var x, y, mid := buf[..Chunk(pos, end)], buf[Chunk(pos, end)..], pos + Chunk(pos, end);
      SlotsLeft(s, b, pos, end);
      DriftWriteStep(s, t, f, b, x, pos, Blk(end - 1));
      WriteUnrolled(t, f, buf, pos, end);
      DriftWriteLoop(s, WriteStep(t, f, x, pos).0, f, b, y, mid, end);
    } else {
      WritesNoBlock(t, f, buf, pos, end);
    }
  }

  lemma DriftIsUnsound(s: Fs, t: Fs, f: nat, b: nat)
    requires Stray(s, f, b) && Drift(s, t, f, b) && !Clean(s.blocks[b])
    ensures !Sound(t)
  {
    var i :| 0 <= i < NINDIRECT && AsWords(s.blocks[b])[i] != 0;
    StaleWord(s, t, f, b, i);
  }

  // ------------------------------------------------------------------
  // Reads
  // ------------------------------------------------------------------

  // Past the direct slots: the call goes on as if the block had been f's indirect block all along.
  lemma ReadTakes(s: Fs, f: nat, pos: nat, end: nat)
    requires Inv(s) && |s.blocks| < WORD && f < |s.files| && pos < end <= s.files[f].size
    requires !FreshBefore(s, f, pos, end) && NDIRECT <= Blk(pos)
    ensures !Sound(ReadLoop(s, f, pos, end).0)
  {
    StaleArrives(s, f, pos, end);
    var b := FirstFree(s, 2).value;
    var w := Claim(s, f, PTR, b);
    DriftStarts(s, f, b);
    TakeThenGet(s, f, Blk(pos));
    DriftReadLoop(s, w, f, b, pos, end);
    assert ReadStep(s, f, pos, end) == ReadStep(w, f, pos, end);
    ReadUnrolled(s, f, pos, end);
    ReadUnrolled(w, f, pos, end);
    DriftIsUnsound(s, ReadLoop(s, f, pos, end).0, f, b);
  }

  // Before: the iteration succeeds and leaves the same block to be taken later.
  lemma ReadGoesOn(s: Fs, f: nat, pos: nat, end: nat)
    requires Inv(s) && |s.blocks| < WORD && f < |s.files| && pos < end <= s.files[f].size
    requires !FreshBefore(s, f, pos, end) && Blk(pos) < NDIRECT
    ensures var g := ReadStep(s, f, pos, end);
      && g.1.Read? && Inv(g.0) && g.0.files[f].size == s.files[f].size
      && pos + Chunk(pos, end) < end && !FreshBefore(g.0, f, pos + Chunk(pos, end), end)
  {
    StaleStep(s, GetBlock(s, f, Blk(pos)).0, f, pos, end);
    ReadStepSpec(s, f, pos, end);
    ChunkNext(pos, end);
    InsideFile(s.files[f].size, pos);
    GetBlockInv(s, f, Blk(pos));
  }

  lemma {:induction false} ReadBreaks(s: Fs, f: nat, pos: nat, end: nat)
    requires Inv(s) && |s.blocks| < WORD && f < |s.files| && pos < end <= s.files[f].size
    requires !FreshBefore(s, f, pos, end)
    ensures !Sound(ReadLoop(s, f, pos, end).0)
    decreases end - pos
  {
    hide *;
    InvWf(s);
    if Blk(pos) >= NDIRECT {
      ReadTakes(s, f, pos, end);
    } else {
      ReadGoesOn(s, f, pos, end);
      ReadUnrolled(s, f, pos, end);
      ReadBreaks(ReadStep(s, f, pos, end).0, f, pos + Chunk(pos, end), end);
    }
  }

  // file_read keeps block ownership exactly when the indirect block it takes, if it takes one, reads as
  // zero; and whether it does can be seen before the call.
  lemma FileReadExact(s: Fs, f: nat, count: nat, offset: nat)
    requires Inv(s) && |s.blocks| < WORD && f < |s.files|
    ensures Sound(FileRead(s, f, count, offset).0) <==> FreshBefore(s, f, offset, ReadEnd(s, f, count, offset))
  {
    var end := ReadEnd(s, f, count, offset);
    if FreshBefore(s, f, offset, end) {
      FileReadSpec(s, f, count, offset);
      InvSound(FileRead(s, f, count, offset).0);
    } else {
      ReadBreaks(s, f, offset, end);
    }
  }

  // ------------------------------------------------------------------
  // Writes
  // ------------------------------------------------------------------

  // The block to be taken happens to hold its own number in a slot the request writes.
  predicate SelfNamed(s: Fs, f: nat, pos: nat, end: nat)
    requires Wf(s) && f < |s.files|
  {
    NeedsIndirect(s, f, pos, end) && NextIndirect(s, f, pos).Some?
    && !NotOwn(s, NextIndirect(s, f, pos).value, Blk(pos), Blk(end - 1))
  }

  lemma WriteTakes(s: Fs, f: nat, buf: seq<bv8>, pos: nat, end: nat)
    requires Inv(s) && |s.blocks| < WORD && f < |s.files| && pos < end <= s.files[f].size && |buf| == end - pos
    requires !FreshBefore(s, f, pos, end) && !SelfNamed(s, f, pos, end) && NDIRECT <= Blk(pos)
    ensures !Sound(WriteLoop(s, f, buf, pos, end).0)
  {
    StaleArrives(s, f, pos, end);
    var b := FirstFree(s, 2).value;
    var w := Claim(s, f, PTR, b);
    DriftStarts(s, f, b);
    TakeThenGet(s, f, Blk(pos));
    DriftWriteLoop(s, w, f, b, buf, pos, end);
    assert WriteStep(s, f, buf[..Chunk(pos, end)], pos) == WriteStep(w, f, buf[..Chunk(pos, end)], pos);
    WriteUnrolled(s, f, buf, pos, end);
    WriteUnrolled(w, f, buf, pos, end);
    DriftIsUnsound(s, WriteLoop(s, f, buf, pos, end).0, f, b);
  }

  lemma WriteStores(s: Fs, f: nat, data: seq<bv8>, pos: nat, end: nat)
    requires Inv(s) && |s.blocks| < WORD && f < |s.files| && pos < end <= s.files[f].size && |data| == Chunk(pos, end)
    requires GetBlock(s, f, Blk(pos)).1.Got? && Blk(pos) < NDIRECT
    ensures WriteStep(s, f, data, pos).1.Wrote? && OnlyStores(GetBlock(s, f, Blk(pos)).0, WriteStep(s, f, data, pos).0)
  {
    var g := GetBlock(s, f, Blk(pos));
    InsideFile(s.files[f].size, pos);
    GetBlockInv(s, f, Blk(pos));
    assert RefOk(g.0, f, Blk(pos)) && OwnOk(g.0, g.1.block);
  }

  lemma SelfNamedNext(s: Fs, s': Fs, f: nat, pos: nat, end: nat)
    requires Inv(s) && |s.blocks| < WORD && f < |s.files| && pos < end <= s.files[f].size
    requires !FreshBefore(s, f, pos, end) && Blk(pos) < NDIRECT && GetBlock(s, f, Blk(pos)).1.Got?
    requires OnlyStores(GetBlock(s, f, Blk(pos)).0, s') && !SelfNamed(s, f, pos, end)
    ensures Wf(s') && f < |s'.files| && !SelfNamed(s', f, pos + Chunk(pos, end), end)
  {
    NextIndirectKept(s, s', f, pos, end);
    var b := NextIndirect(s, f, pos).value;
    assert forall i: nat :: i < NINDIRECT ==> WordAt(s', b, i) == WordAt(s, b, i);
  }

  lemma WriteGoesOn(s: Fs, f: nat, data: seq<bv8>, pos: nat, end: nat)
    requires Inv(s) && |s.blocks| < WORD && f < |s.files| && pos < end <= s.files[f].size && |data| == Chunk(pos, end)
    requires !FreshBefore(s, f, pos, end) && !SelfNamed(s, f, pos, end) && Blk(pos) < NDIRECT
    ensures var g, mid := WriteStep(s, f, data, pos), pos + Chunk(pos, end);
      && g.1.Wrote? && Inv(g.0) && g.0.files[f].size == s.files[f].size && mid < end
      && !FreshBefore(g.0, f, mid, end) && !SelfNamed(g.0, f, mid, end)
  {
    var s' := WriteStep(s, f, data, pos).0;
    StaleStep(s, GetBlock(s, f, Blk(pos)).0, f, pos, end);
    WriteStores(s, f, data, pos, end);
    StaleStep(s, s', f, pos, end);
    SelfNamedNext(s, s', f, pos, end);
    WriteStepSpec(s, f, data, pos);
    ChunkNext(pos, end);
  }

  lemma {:induction false} WriteBreaks(s: Fs, f: nat, buf: seq<bv8>, pos: nat, end: nat)
    requires Inv(s) && |s.blocks| < WORD && f < |s.files| && pos < end <= s.files[f].size && |buf| == end - pos
    requires !FreshBefore(s, f, pos, end) && !SelfNamed(s, f, pos, end)
    ensures !Sound(WriteLoop(s, f, buf, pos, end).0)
    decreases end - pos
  {
    hide *;
    InvWf(s);
    if Blk(pos) >= NDIRECT {
      WriteTakes(s, f, buf, pos, end);
    } else {
      var x, y := buf[..Chunk(pos, end)], buf[Chunk(pos, end)..];
      WriteGoesOn(s, f, x, pos, end);
      WriteUnrolled(s, f, buf, pos, end);
      WriteBreaks(WriteStep(s, f, x, pos).0, f, y, pos + Chunk(pos, end), end);
    }
  }

  // The file's size plays no part.
  lemma SelfNamedSame(s: Fs, s1: Fs, f: nat, pos: nat, end: nat)
    requires Wf(s) && f < |s.files| && exists n :: s1 == s.(files := s.files[f := s.files[f].(size := n)])
    ensures Wf(s1) && (SelfNamed(s1, f, pos, end) <==> SelfNamed(s, f, pos, end))
    ensures !FreshBefore(s, f, pos, end) ==> pos < end
  {
    FreshSame(s, s1, f, pos, end);
    if NextIndirect(s, f, pos).Some? {
      var b := NextIndirect(s, f, pos).value;
      assert forall i: nat :: i < NINDIRECT ==> WordAt(s1, b, i) == WordAt(s, b, i);
    }
  }

  // file_write keeps block ownership exactly when the indirect block it takes, if it takes one, reads as
  // zero, provided that block does not hold its own number where the request writes.
  lemma FileWriteExact(s: Fs, f: nat, buf: seq<bv8>, offset: nat)
    requires Inv(s) && |s.blocks| < WORD && f < |s.files| && !SelfNamed(s, f, offset, offset + |buf|)
    ensures Sound(FileWrite(s, f, buf, offset).0) <==> FreshBefore(s, f, offset, offset + |buf|)
  {
    hide *;
    InvWf(s);
    var end := offset + |buf|;
    var s1 := Extended(s, f, end);
    if FreshBefore(s, f, offset, end) {
      FileWriteSpec(s, f, buf, offset);
      InvSound(FileWrite(s, f, buf, offset).0);
    } else {
      WritesExtended(s, f, buf, offset);
      FreshSame(s, s1, f, offset, end);
      SelfNamedSame(s, s1, f, offset, end);
      WriteBreaks(s1, f, buf, offset, end);
    }
  }

  // ------------------------------------------------------------------
  // Disks on which it happens
  // ------------------------------------------------------------------

  lemma FormatHasFree(n: nat, m: nat, contents: Block)
    requires BlockOk(contents) && 4 <= n
    ensures FirstFree(Format(n, m, contents), 2).Some?
  {
    assert !ReservedBlock(n, n - 1);
    assert Format(n, m, contents).free[n - 1];
  }

  lemma Tenth()
    ensures Blk(NDIRECT * BLKSIZE) == NDIRECT && Off(NDIRECT * BLKSIZE) == 0
  {
    BlkOff(NDIRECT * BLKSIZE);
  }

  // On a formatted disk whose blocks do not read as zero, growing an empty file past its direct blocks
  // and reading one byte there is enough.
  lemma DirtyDisk(n: nat, m: nat, contents: Block, f: nat, size: nat)
    requires BlockOk(contents) && !Clean(contents) && 4 <= n < WORD && f < m && NDIRECT * BLKSIZE < size
    ensures var s := SetSize(Format(n, m, contents), f, size);
      Inv(s) && !Sound(FileRead(s, f, 1, NDIRECT * BLKSIZE).0)
  {
    FormatInv(n, m, contents);
    FormatHasFree(n, m, contents);
    Tenth();
    var s0 := Format(n, m, contents);
    SetSizeSpec(s0, f, size);
    ExtendedSame(s0, f, size);
    var s, pos := SetSize(s0, f, size), NDIRECT * BLKSIZE;
    FirstFreeSame(s0, s, 2);
    assert NextIndirect(s, f, pos) == FirstFree(s, 2);
    FileReadExact(s, f, 1, pos);
  }

  // A block whose first word is 3, and a page of zero bytes.
  function Selfish(): (b: Block)
    ensures BlockOk(b) && AsWords(b)[0] == 3
  {
    Words([3] + seq(NINDIRECT - 1, i => 0))
  }

  function Zeros(n: nat): (x: seq<bv8>)
    ensures |x| == n && forall i :: 0 <= i < n ==> x[i] == 0
  {
    seq(n, i => 0 as bv8)
  }

  lemma {:induction false} ZeroWords(x: seq<bv8>)
    requires forall i :: 0 <= i < |x| ==> x[i] == 0
    ensures forall i :: 0 <= i < |WordsOf(x)| ==> WordsOf(x)[i] == 0
  {
    if |x| >= 4 {
      ZeroWords(x[4..]);
    }
  }

  // What is left of such a disk.
  predicate Cleared(t: Fs) {
    && Wf(t) && |t.blocks| == 4 && t.free == [false, false, false, false] && |t.files| == 1
    && t.files[0].indirect == 3 && (forall k :: 0 <= k < NDIRECT ==> t.files[0].direct[k] == 0)
    && Clean(t.blocks[3])
  }

  // The disk, with its file already extended.
  predicate AboutToClear(s: Fs, pos: nat) {
    && pos == NDIRECT * BLKSIZE && Blk(pos) == NDIRECT && Off(pos) == 0
    && Wf(s) && |s.blocks| == 4 && s.free == [false, false, false, true]
    && s.files == [File(pos + BLKSIZE, seq(NDIRECT, i => 0), 0)] && s.blocks[3] == Selfish()
  }

  lemma OnlyThree(s: Fs)
    requires Wf(s) && |s.blocks| == 4 && s.free == [false, false, false, true]
    ensures FirstFree(s, 2) == Some(3)
  {
  }

  lemma GetsItself(s: Fs, pos: nat)
    requires AboutToClear(s, pos)
    ensures GetBlock(s, 0, NDIRECT) == (Claim(s, 0, PTR, 3), Got(3))
  {
    OnlyThree(s);
    BlkOff(pos + BLKSIZE);
    var w := Claim(s, 0, PTR, 3);
    assert BlockWalk(s, 0, NDIRECT, true) == (w, At(NDIRECT));
    assert Ref(w, 0, NDIRECT) == 3;
  }

  lemma StepClears(s: Fs, pos: nat)
    requires AboutToClear(s, pos)
    ensures |Claim(s, 0, PTR, 3).blocks| == 4
    ensures WriteStep(s, 0, Zeros(BLKSIZE), pos) == (Poke(Claim(s, 0, PTR, 3), 3, 0, Zeros(BLKSIZE)), Wrote)
  {
    GetsItself(s, pos);
    hide GetBlock, Claim, Poke, Blk, Off, Selfish, Zeros, BlockOk;
  }

  lemma PokeClears(s: Fs, pos: nat)
    requires AboutToClear(s, pos)
    ensures |Claim(s, 0, PTR, 3).blocks| == 4 && Cleared(Poke(Claim(s, 0, PTR, 3), 3, 0, Zeros(BLKSIZE)))
  {
    hide Blk, Off, Selfish, AsBytes, AsWords;
    var w, z := Claim(s, 0, PTR, 3), Zeros(BLKSIZE);
    assert w.free == [false, false, false, false] && w.files[0].indirect == 3;
    var t := Poke(w, 3, 0, z);
    assert t.blocks[3].bytes == z;
    ZerosAreClean(t.blocks[3]);
  }

  lemma ZerosAreClean(b: Block)
    requires b.Bytes? && b.bytes == Zeros(BLKSIZE)
    ensures BlockOk(b) && Clean(b)
  {
    ZeroWords(b.bytes);
  }

  lemma ClearsItself(s: Fs, pos: nat)
    requires AboutToClear(s, pos) && Wf(s) && Off(pos) == 0
    ensures var r := WriteStep(s, 0, Zeros(BLKSIZE), pos); r.1.Wrote? && Cleared(r.0) && Sound(r.0)
  {
    StepClears(s, pos);
    PokeClears(s, pos);
    hide *;
    ClearedIsSound(WriteStep(s, 0, Zeros(BLKSIZE), pos).0);
  }

  lemma ClearedIsSound(t: Fs)
    requires Cleared(t)
    ensures Sound(t)
  {
    forall k: nat | k <= PTR ensures Ref(t, 0, k) == if k == PTR then 3 else 0 {
    }
    assert Named(t, 3) by {
      assert Ref(t, 0, PTR) == 3;
    }
  }

  lemma OneStep(s1: Fs, pos: nat)
    requires Wf(s1) && |s1.blocks| < WORD && |s1.files| == 1 && Off(pos) == 0
    requires WriteStep(s1, 0, Zeros(BLKSIZE), pos).1.Wrote?
    ensures WriteLoop(s1, 0, Zeros(BLKSIZE), pos, pos + BLKSIZE) == (WriteStep(s1, 0, Zeros(BLKSIZE), pos).0, Wrote)
  {
    var z := Zeros(BLKSIZE);
    assert z[..BLKSIZE] == z;
    WriteUnrolled(s1, 0, z, pos, pos + BLKSIZE);
  }

  lemma HolesAreNotBytes(t: Fs, pos: nat)
    requires Cleared(t) && pos == NDIRECT * BLKSIZE
    ensures !HasBytes(t, 0, pos, Zeros(BLKSIZE))
  {
    Tenth();
    var z, i: nat := Zeros(BLKSIZE), 0;
    assert Ref(t, 0, NDIRECT) == 0;
    assert i < |z| && ByteAt(t, 0, pos + i) != Some(z[i]);
  }

  lemma SelfNamedHere(s: Fs, pos: nat)
    requires s == Format(4, 1, Selfish()) && pos == NDIRECT * BLKSIZE
    ensures Inv(s) && |s.blocks| < WORD && s.free == [false, false, false, true]
    ensures !FreshBefore(s, 0, pos, pos + BLKSIZE) && SelfNamed(s, 0, pos, pos + BLKSIZE)
  {
    FormatInv(4, 1, Selfish());
    Tenth();
    BlkOff(pos + BLKSIZE - 1);
    assert s.free == [!ReservedBlock(4, 0), !ReservedBlock(4, 1), !ReservedBlock(4, 2), !ReservedBlock(4, 3)];
    OnlyThree(s);
    assert NextIndirect(s, 0, pos) == FirstFree(s, 2);
    assert WordAt(s, 3, 0) == 3;
  }

  lemma ExtendedHere(s: Fs, pos: nat)
    requires s == Format(4, 1, Selfish()) && pos == NDIRECT * BLKSIZE && s.free == [false, false, false, true]
    ensures |s.blocks| < WORD && |s.blocks| == 4 && |s.files| == 1 && AboutToClear(Extended(s, 0, pos + BLKSIZE), pos)
  {
    Tenth();
    ExtendedSame(s, 0, pos + BLKSIZE);
    assert s.files == [File(0, seq(NDIRECT, i => 0), 0)];
    hide Blk, Off, SetSize, Extended;
  }

  // The hypothesis of FileWriteExact is needed: on a disk of four blocks the only free block holds its
  // own number, the write goes through the slot that names it, clears it, and reports success.  Ownership
  // is as it should be; the bytes are gone.
  lemma SelfNamedIndirect()
    ensures var s, pos := Format(4, 1, Selfish()), NDIRECT * BLKSIZE;
      && |s.blocks| == 4 && |s.files| == 1
      && var r := FileWrite(s, 0, Zeros(BLKSIZE), pos);
        && Inv(s) && !FreshBefore(s, 0, pos, pos + BLKSIZE) && SelfNamed(s, 0, pos, pos + BLKSIZE)
        && r.1.Wrote? && Sound(r.0) && !HasBytes(r.0, 0, pos, Zeros(BLKSIZE))
  {
    hide *;
    var s, pos := Format(4, 1, Selfish()), NDIRECT * BLKSIZE;
    SelfNamedHere(s, pos);
    ExtendedHere(s, pos);
    var s1 := Extended(s, 0, pos + BLKSIZE);
    AboutToClearWf(s1, pos);
    WritesExtended(s, 0, Zeros(BLKSIZE), pos);
    ClearsItself(s1, pos);
    OneStep(s1, pos);
    HolesAreNotBytes(WriteStep(s1, 0, Zeros(BLKSIZE), pos).0, pos);
  }

  lemma AboutToClearWf(s: Fs, pos: nat)
    requires AboutToClear(s, pos)
    ensures Wf(s) && Off(pos) == 0 && |s.blocks| == 4 && |s.files| == 1
  {
  }
}
