// Files of fs/fs.c as byte sequences: file_read, file_write, file_set_size and truncation.
module FsFiles {
  import opened Wrappers
  import opened FsBlocks

  // The byte at position p of file f; None in a hole, whose bytes nobody has written.  (A data slot
  // never names a block of words: Inv.)
  function ByteAt(s: Fs, f: nat, p: nat): Option<bv8>
    requires Wf(s) && f < |s.files|
  {
    var k := Blk(p);
    if k >= NSLOTS then None
    else
      var b := Ref(s, f, k);
      if b == 0 || b >= |s.blocks| || s.blocks[b].Words? then None else Some(s.blocks[b].bytes[Off(p)])
  }

  // Blocks that hold data of some file keep their bytes.
  ghost predicate KeepsData(s: Fs, s': Fs)
    requires Wf(s) && Wf(s')
  {
    && |s'.files| == |s.files| && |s'.blocks| == |s.blocks|
    && (forall b :: 0 <= b < |s.blocks| && s.owner[b].Slot? && s.owner[b].slot < PTR ==> s'.blocks[b] == s.blocks[b])
  }

  // Every byte that has a value keeps it, and files other than f keep their holes too.
  ghost predicate KeepsBytes(s: Fs, s': Fs, f: nat)
    requires Wf(s) && Wf(s')
  {
    && |s'.files| == |s.files|
    && (forall h: nat, p: nat :: h < |s.files| && (h != f || ByteAt(s, h, p).Some?) ==>
          ByteAt(s', h, p) == ByteAt(s, h, p))
  }

  predicate KeepsSizes(s: Fs, s': Fs) {
    |s'.files| == |s.files| && forall h :: 0 <= h < |s.files| ==> s'.files[h].size == s.files[h].size
  }

  lemma GetBlockData(s: Fs, f: nat, filebno: nat)
    requires Inv(s) && |s.blocks| < WORD && f < |s.files|
    ensures KeepsData(s, GetBlock(s, f, filebno).0)
  {
    assert RefOk(s, f, PTR);
    var w := BlockWalk(s, f, filebno, true);
    if FirstFree(s, 2).Some? {
      assert OwnOk(s, FirstFree(s, 2).value);
    }
    if FirstFree(w.0, 2).Some? {
      assert OwnOk(s, FirstFree(w.0, 2).value);
    }
  }

  lemma GetBlockBytes(s: Fs, f: nat, filebno: nat)
    requires Inv(s) && |s.blocks| < WORD && f < |s.files|
    requires FreshIndirect(s, f, filebno) && !PastEnd(s, f, filebno)
    ensures KeepsBytes(s, GetBlock(s, f, filebno).0, f) && KeepsSizes(s, GetBlock(s, f, filebno).0)
  {
    GetBlockInv(s, f, filebno);
    GetBlockData(s, f, filebno);
    var s' := GetBlock(s, f, filebno).0;
    forall h: nat, p: nat | h < |s.files| && (h != f || ByteAt(s, h, p).Some?)
      ensures ByteAt(s', h, p) == ByteAt(s, h, p)
    {
      if Blk(p) < NSLOTS {
        assert RefOk(s, h, Blk(p));
      }
    }
  }

  // ------------------------------------------------------------------
  // file_read
  // ------------------------------------------------------------------

  function Min(a: nat, b: nat): nat {
    if a <= b then a else b
  }

  function Max(a: nat, b: nat): nat {
    if a <= b then b else a
  }

  // bn of the two loops: up to the end of the block, or of the request.
  function Chunk(pos: nat, end: nat): (bn: nat)
    requires pos < end
    ensures 0 < bn && pos + bn <= end && Off(pos) + bn <= BLKSIZE
  {
    Min(BLKSIZE - Off(pos), end - pos)
  }

  datatype ReadResult = Read(bytes: seq<bv8>) | ReadFailed(error: Error)

  // One iteration: the block, and the bytes copied out of it.
  function ReadStep(s: Fs, f: nat, pos: nat, end: nat): (r: (Fs, ReadResult))
    requires Wf(s) && |s.blocks| < WORD && f < |s.files| && pos < end
    ensures Wf(r.0) && |r.0.files| == |s.files| && |r.0.blocks| == |s.blocks|
  {
    var g := GetBlock(s, f, Blk(pos));
    if g.1.GetFailed? then (g.0, ReadFailed(g.1.error))
    else if g.1.block >= |s.blocks| then (g.0, ReadFailed(Invalid))       // halted
    else (g.0, Read(AsBytes(g.0.blocks[g.1.block])[Off(pos)..Off(pos) + Chunk(pos, end)]))
  }

  function ReadLoop(s: Fs, f: nat, pos: nat, end: nat): (r: (Fs, ReadResult))
    requires Wf(s) && |s.blocks| < WORD && f < |s.files|
    ensures Wf(r.0) && |r.0.files| == |s.files| && |r.0.blocks| == |s.blocks|
    decreases end - pos
  {
    if pos >= end then (s, Read([]))
    else
      var g := ReadStep(s, f, pos, end);
      if g.1.ReadFailed? then g
      else
        var rest := ReadLoop(g.0, f, pos + Chunk(pos, end), end);
        (rest.0, if rest.1.ReadFailed? then rest.1 else Read(g.1.bytes + rest.1.bytes))
  }

  // The request clipped at the size of the file.
  function ReadEnd(s: Fs, f: nat, count: nat, offset: nat): (end: nat)
    requires f < |s.files|
  {
    if offset >= s.files[f].size then offset else offset + Min(count, s.files[f].size - offset)
  }

  function FileRead(s: Fs, f: nat, count: nat, offset: nat): (r: (Fs, ReadResult))
    requires Wf(s) && |s.blocks| < WORD && f < |s.files|
    ensures Wf(r.0) && |r.0.files| == |s.files| && |r.0.blocks| == |s.blocks|
  {
    if offset >= s.files[f].size then (s, Read([]))
    else ReadLoop(s, f, offset, ReadEnd(s, f, count, offset))
  }

  lemma InsideFile(size: nat, pos: nat)
    requires pos < size
    ensures Blk(pos) <= Blk(size) && !(Blk(pos) == Blk(size) && Off(size) == 0)
  {
    BlkOff(pos);
    BlkOff(size);
  }

  lemma ChunkSlot(pos: nat, end: nat, i: nat)
    requires pos < end && i < Chunk(pos, end)
    ensures Blk(pos + i) == Blk(pos) && Off(pos + i) == Off(pos) + i
  {
    BlkOff(pos);
    BlkOff(pos + i);
  }

  // ------------------------------------------------------------------
  // The indirect block a call would take
  // ------------------------------------------------------------------

  // The n-th free block from b on, counting from 0: the order in which alloc_block hands them out.
  function NthFree(s: Fs, b: nat, n: nat): (r: Option<nat>)
    requires Wf(s)
    ensures r.Some? ==> r.value < |s.blocks| && s.free[r.value]
    decreases n
  {
    var x := FirstFree(s, b);
    if x.None? || n == 0 then x else NthFree(s, x.value + 1, n - 1)
  }

  // Empty direct slots of f from slot lo on.
  function DirectHoles(s: Fs, f: nat, lo: nat): nat
    requires Wf(s) && f < |s.files|
    decreases NDIRECT - lo
  {
    if lo >= NDIRECT then 0 else (if s.files[f].direct[lo] == 0 then 1 else 0) + DirectHoles(s, f, lo + 1)
  }

  // The block that becomes f's indirect block, once the direct slots from pos on have theirs.
  function NextIndirect(s: Fs, f: nat, pos: nat): (r: Option<nat>)
    requires Wf(s) && f < |s.files|
    ensures r.Some? ==> r.value < |s.blocks| && s.free[r.value]
  {
    NthFree(s, 2, DirectHoles(s, f, Blk(pos)))
  }

  // A call on [pos, end) goes past the direct slots of a file without an indirect block.
  predicate NeedsIndirect(s: Fs, f: nat, pos: nat, end: nat)
    requires Wf(s) && f < |s.files|
  {
    pos < end && end > NDIRECT * BLKSIZE && Blk(pos) < NSLOTS && s.files[f].indirect == 0
  }

  // What a caller can check before the call: the block it would take reads as zero.
  predicate FreshBefore(s: Fs, f: nat, pos: nat, end: nat)
    requires Wf(s) && f < |s.files|
  {
    NeedsIndirect(s, f, pos, end) ==>
      NextIndirect(s, f, pos).Some? ==> Clean(s.blocks[NextIndirect(s, f, pos).value])
  }

  // In particular when the file has an indirect block, needs none, or all free blocks read as zero.
  lemma FreshWhenClean(s: Fs, f: nat, pos: nat, end: nat)
    requires Wf(s) && f < |s.files|
    requires || s.files[f].indirect != 0 || end <= NDIRECT * BLKSIZE
             || (forall b: nat :: b < |s.blocks| && s.free[b] ==> Clean(s.blocks[b]))
    ensures FreshBefore(s, f, pos, end)
  {
  }

  lemma FirstFreeSame(s: Fs, s': Fs, b: nat)
    requires Wf(s) && Wf(s') && |s'.blocks| == |s.blocks|
    requires forall c: nat :: b <= c < |s.blocks| ==> s'.free[c] == s.free[c]
    ensures FirstFree(s', b) == FirstFree(s, b)
  {
  }

  lemma {:induction false} NthFreeSame(s: Fs, s': Fs, b: nat, n: nat)
    requires Wf(s) && Wf(s') && |s'.blocks| == |s.blocks|
    requires forall c: nat :: b <= c < |s.blocks| ==> s'.free[c] == s.free[c]
    ensures NthFree(s', b, n) == NthFree(s, b, n)
    decreases n
  {
    var x := FirstFree(s, b);
    FirstFreeSame(s, s', b);
    hide FirstFree;
    if x.Some? && n > 0 {
      NthFreeSame(s, s', x.value + 1, n - 1);
    }
  }

  lemma FirstFreeTaken(s: Fs, s': Fs, b: nat)
    requires Wf(s) && Wf(s') && |s'.blocks| == |s.blocks| && FirstFree(s, b).Some?
    requires s'.free == s.free[FirstFree(s, b).value := false]
    ensures FirstFree(s', b) == FirstFree(s', FirstFree(s, b).value + 1)
  {
  }

  lemma NthFreeFrom(s: Fs, b: nat, c: nat, n: nat)
    requires Wf(s) && FirstFree(s, b) == FirstFree(s, c)
    ensures NthFree(s, b, n) == NthFree(s, c, n)
    ensures n > 0 && FirstFree(s, b).Some? ==> NthFree(s, b, n) == NthFree(s, FirstFree(s, b).value + 1, n - 1)
  {
    hide FirstFree;
  }

  // Taking the first free block leaves the second one first.
  lemma NthFreeTaken(s: Fs, s': Fs, b: nat, n: nat)
    requires Wf(s) && Wf(s') && |s'.blocks| == |s.blocks| && FirstFree(s, b).Some? && n > 0
    requires |s.free| == |s.blocks| && s'.free == s.free[FirstFree(s, b).value := false]
    ensures NthFree(s', b, n - 1) == NthFree(s, b, n)
  {
    hide *;
    var x := FirstFree(s, b).value;
    FirstFreeTaken(s, s', b);
    NthFreeSame(s, s', x + 1, n - 1);
    NthFreeFrom(s', b, x + 1, n - 1);
    NthFreeFrom(s, b, b, n);
  }

  lemma {:induction false} DirectHolesSame(s: Fs, s': Fs, f: nat, lo: nat)
    requires Wf(s) && Wf(s') && f < |s.files| && |s'.files| == |s.files|
    requires forall k :: lo <= k < NDIRECT ==> s'.files[f].direct[k] == s.files[f].direct[k]
    ensures DirectHoles(s', f, lo) == DirectHoles(s, f, lo)
    decreases NDIRECT - lo
  {
    if lo < NDIRECT {
      DirectHolesSame(s, s', f, lo + 1);
    }
  }

  lemma ChunkNext(pos: nat, end: nat)
    requires pos < end
    ensures pos + Chunk(pos, end) < end ==> Blk(pos + Chunk(pos, end)) == Blk(pos) + 1
    ensures Blk(pos) < NDIRECT && end > NDIRECT * BLKSIZE ==> pos + Chunk(pos, end) < end
  {
    BlkOff(pos);
    BlkOff(pos + Chunk(pos, end));
  }

  // file_get_block on a direct slot.
  lemma DirectGet(s: Fs, f: nat, k: nat)
    requires Inv(s) && |s.blocks| < WORD && f < |s.files| && k < NDIRECT && k <= Blk(s.files[f].size)
    ensures var b, n := s.files[f].direct[k], FirstFree(s, 2);
      GetBlock(s, f, k) ==
        if b != 0 then (s, Got(b))
        else if n.None? then (s, GetFailed(NoDisk))
        else (Claim(s, f, k, n.value), Got(n.value))
  {
    assert RefOk(s, f, k);
    hide Claim, FirstFree, Reserved, Ceil, AsWords;
  }

  lemma DirectClaim(s: Fs, f: nat, k: nat, n: nat)
    requires Wf(s) && f < |s.files| && k < NDIRECT && n < |s.blocks| < WORD
    ensures var s' := Claim(s, f, k, n);
      && s'.files == s.files[f := s.files[f].(direct := s.files[f].direct[k := n])] && s'.free == s.free[n := false]
      && (forall c: nat :: c < |s.blocks| && c != n ==> s'.blocks[c] == s.blocks[c])
  {
  }

  // What one direct slot leaves of the free list, of the slots after it, and of the free blocks.
  lemma DirectStep(s: Fs, f: nat, k: nat)
    requires Inv(s) && |s.blocks| < WORD && f < |s.files| && k < NDIRECT && k <= Blk(s.files[f].size)
    ensures var g := GetBlock(s, f, k);
      && g.0.files[f].indirect == s.files[f].indirect
      && (g.1.Got? ==>
            NthFree(g.0, 2, DirectHoles(g.0, f, k + 1)) == NthFree(s, 2, DirectHoles(s, f, k))
            && forall c: nat :: c < |s.blocks| && g.0.free[c] ==> g.0.blocks[c] == s.blocks[c])
      && (g.1.GetFailed? ==> NthFree(s, 2, DirectHoles(s, f, k)).None?)
  {
    var g := GetBlock(s, f, k);
    DirectGet(s, f, k);
    hide GetBlock, Claim, FirstFree, Inv, BlockOk, Blk;
    if s.files[f].direct[k] == 0 && FirstFree(s, 2).Some? {
      DirectClaim(s, f, k, FirstFree(s, 2).value);
      DirectHolesSame(s, g.0, f, k + 1);
      NthFreeTaken(s, g.0, 2, DirectHoles(s, f, k));
    }
  }

  // What an iteration may do after file_get_block: store into a block in use.
  ghost predicate OnlyStores(g: Fs, s': Fs)
    requires Wf(g)
  {
    && Wf(s') && s'.files == g.files && s'.free == g.free && |s'.blocks| == |g.blocks|
    && forall c: nat :: c < |g.blocks| && g.free[c] ==> s'.blocks[c] == g.blocks[c]
  }

  lemma StoresKeepNth(g: Fs, s': Fs, f: nat, k: nat)
    requires Wf(g) && OnlyStores(g, s') && f < |g.files|
    ensures var b := NthFree(g, 2, DirectHoles(g, f, k));
      NthFree(s', 2, DirectHoles(s', f, k)) == b && (b.Some? ==> s'.blocks[b.value] == g.blocks[b.value])
  {
    DirectHolesSame(g, s', f, k);
    NthFreeSame(g, s', 2, DirectHoles(g, f, k));
  }

  lemma NextIndirectKept(s: Fs, s': Fs, f: nat, pos: nat, end: nat)
    requires Inv(s) && |s.blocks| < WORD && f < |s.files| && pos < end <= s.files[f].size && Blk(pos) < NDIRECT
    requires GetBlock(s, f, Blk(pos)).1.Got? && end > NDIRECT * BLKSIZE
    requires OnlyStores(GetBlock(s, f, Blk(pos)).0, s')
    ensures var mid := pos + Chunk(pos, end);
      && mid < end && Blk(mid) == Blk(pos) + 1
      && s'.files[f].indirect == s.files[f].indirect
      && NextIndirect(s', f, mid) == NextIndirect(s, f, pos)
      && (NextIndirect(s, f, pos).Some? ==>
            s'.blocks[NextIndirect(s, f, pos).value] == s.blocks[NextIndirect(s, f, pos).value])
  {
    var k, g := Blk(pos), GetBlock(s, f, Blk(pos)).0;
    InsideFile(s.files[f].size, pos);
    ChunkNext(pos, end);
    assert s'.files == g.files;
    hide OnlyStores, GetBlock, Inv, Chunk, NthFree, DirectHoles, Blk;
    DirectStep(s, f, k);
    StoresKeepNth(g, s', f, k + 1);
  }

  lemma KeepsIndirect(s: Fs, f: nat, filebno: nat)
    requires Wf(s) && |s.blocks| < WORD && f < |s.files|
    ensures var g := GetBlock(s, f, filebno);
      && (s.files[f].indirect != 0 ==> g.0.files[f].indirect != 0)
      && (g.1.Got? && filebno >= NDIRECT ==> g.0.files[f].indirect != 0)
  {
  }

  // One iteration of a call whose indirect block is fresh.
  lemma FreshStep(s: Fs, s': Fs, f: nat, pos: nat, end: nat)
    requires Inv(s) && |s.blocks| < WORD && f < |s.files| && pos < end <= s.files[f].size
    requires FreshBefore(s, f, pos, end)
    requires OnlyStores(GetBlock(s, f, Blk(pos)).0, s')
    ensures FreshIndirect(s, f, Blk(pos))
    ensures GetBlock(s, f, Blk(pos)).1.Got? ==> FreshBefore(s', f, pos + Chunk(pos, end), end)
  {
    InsideFile(s.files[f].size, pos);
    KeepsIndirect(s, f, Blk(pos));
    BlkOff(pos);
    if GetBlock(s, f, Blk(pos)).1.Got? && Blk(pos) < NDIRECT && end > NDIRECT * BLKSIZE {
      NextIndirectKept(s, s', f, pos, end);
    }
  }

  // One iteration of a call whose indirect block is not fresh, still at a direct slot.
  lemma StaleStep(s: Fs, s': Fs, f: nat, pos: nat, end: nat)
    requires Inv(s) && |s.blocks| < WORD && f < |s.files| && pos < end <= s.files[f].size
    requires !FreshBefore(s, f, pos, end) && Blk(pos) < NDIRECT
    requires OnlyStores(GetBlock(s, f, Blk(pos)).0, s')
    ensures GetBlock(s, f, Blk(pos)).1.Got?
    ensures !FreshBefore(s', f, pos + Chunk(pos, end), end)
  {
    InsideFile(s.files[f].size, pos);
    DirectStep(s, f, Blk(pos));
    NextIndirectKept(s, s', f, pos, end);
  }

  // It arrives past the direct slots with that block the first free one.
  lemma StaleArrives(s: Fs, f: nat, pos: nat, end: nat)
    requires Inv(s) && |s.blocks| < WORD && f < |s.files| && pos < end <= s.files[f].size
    requires !FreshBefore(s, f, pos, end) && Blk(pos) >= NDIRECT
    ensures NextIndirect(s, f, pos) == FirstFree(s, 2) && TakesIndirect(s, f, Blk(pos))
    ensures Stray(s, f, FirstFree(s, 2).value) && !FreshIndirect(s, f, Blk(pos))
  {
    InsideFile(s.files[f].size, pos);
  }

  lemma KeepsTrans(a: Fs, b: Fs, c: Fs, f: nat)
    requires Wf(a) && Wf(b) && Wf(c) && KeepsBytes(a, b, f) && KeepsBytes(b, c, f)
    ensures KeepsBytes(a, c, f)
  {
  }

  ghost predicate HasBytes(s: Fs, f: nat, pos: nat, bytes: seq<bv8>)
    requires Wf(s) && f < |s.files|
  {
    forall i: nat :: i < |bytes| ==> ByteAt(s, f, pos + i) == Some(bytes[i])
  }

  lemma HasConcat(s: Fs, f: nat, pos: nat, x: seq<bv8>, y: seq<bv8>)
    requires Wf(s) && f < |s.files| && HasBytes(s, f, pos, x) && HasBytes(s, f, pos + |x|, y)
    ensures HasBytes(s, f, pos, x + y)
  {
    forall i: nat | i < |x + y| ensures ByteAt(s, f, pos + i) == Some((x + y)[i]) {
      if i >= |x| {
        assert ByteAt(s, f, pos + |x| + (i - |x|)) == Some(y[i - |x|]);
      }
    }
  }

  lemma HasKept(s: Fs, s': Fs, f: nat, pos: nat, bytes: seq<bv8>)
    requires Wf(s) && Wf(s') && f < |s.files| && HasBytes(s, f, pos, bytes) && KeepsBytes(s, s', f)
    ensures HasBytes(s', f, pos, bytes)
  {
  }

  // What the block answered for pos holds is the bytes of the file there.
  lemma BlockHasBytes(s: Fs, f: nat, pos: nat, end: nat, b: nat)
    requires Wf(s) && f < |s.files| && pos < end && Blk(pos) < NSLOTS
    requires b != 0 && b < |s.blocks| && Ref(s, f, Blk(pos)) == b && s.blocks[b].Bytes?
    ensures HasBytes(s, f, pos, s.blocks[b].bytes[Off(pos)..Off(pos) + Chunk(pos, end)])
  {
    var x := s.blocks[b].bytes[Off(pos)..Off(pos) + Chunk(pos, end)];
    forall i: nat | i < |x| ensures ByteAt(s, f, pos + i) == Some(x[i]) {
      ChunkSlot(pos, end, i);
    }
  }

  // The bytes of [pos, end) were read, and nothing but holes of f changed.
  ghost predicate ReadSpec(s: Fs, r: (Fs, ReadResult), f: nat, pos: nat, end: nat)
    requires Wf(s) && f < |s.files|
  {
    && Inv(r.0) && KeepsBytes(s, r.0, f) && KeepsSizes(s, r.0)
    && (r.1.Read? ==> |r.1.bytes| == end - pos && HasBytes(r.0, f, pos, r.1.bytes))
  }

  lemma ReadStepSpec(s: Fs, f: nat, pos: nat, end: nat)
    requires Inv(s) && |s.blocks| < WORD && f < |s.files| && pos < end <= s.files[f].size
    requires FreshIndirect(s, f, Blk(pos))
    ensures ReadSpec(s, ReadStep(s, f, pos, end), f, pos, pos + Chunk(pos, end))
  {
    InsideFile(s.files[f].size, pos);
    GetBlockInv(s, f, Blk(pos));
    GetBlockBytes(s, f, Blk(pos));
    var g := GetBlock(s, f, Blk(pos));
    if g.1.Got? {
      assert RefOk(g.0, f, Blk(pos)) && OwnOk(g.0, g.1.block);
      BlockHasBytes(g.0, f, pos, end, g.1.block);
    }
  }

  // Two stretches read one after the other.
  lemma Joined(a: Fs, b: Fs, c: Fs, f: nat, pos: nat, x: seq<bv8>, y: seq<bv8>)
    requires Wf(a) && Wf(b) && Wf(c) && f < |a.files| && KeepsBytes(a, b, f) && KeepsBytes(b, c, f)
    requires HasBytes(b, f, pos, x) && HasBytes(c, f, pos + |x|, y)
    ensures KeepsBytes(a, c, f) && HasBytes(c, f, pos, x + y)
  {
    KeepsTrans(a, b, c, f);
    HasKept(b, c, f, pos, x);
    HasConcat(c, f, pos, x, y);
  }

  lemma ReadCompose(s: Fs, g: (Fs, ReadResult), r: (Fs, ReadResult), f: nat, pos: nat, mid: nat, end: nat)
    requires Wf(s) && f < |s.files| && pos <= mid <= end && g.1.Read?
    requires ReadSpec(s, g, f, pos, mid) && ReadSpec(g.0, r, f, mid, end)
    ensures ReadSpec(s, (r.0, if r.1.ReadFailed? then r.1 else Read(g.1.bytes + r.1.bytes)), f, pos, end)
  {
    if r.1.Read? {
      Joined(s, g.0, r.0, f, pos, g.1.bytes, r.1.bytes);
    } else {
      KeepsTrans(s, g.0, r.0, f);
    }
  }

  lemma FreshReadStep(s: Fs, f: nat, pos: nat, end: nat)
    requires Inv(s) && |s.blocks| < WORD && f < |s.files| && pos < end <= s.files[f].size && FreshBefore(s, f, pos, end)
    ensures FreshIndirect(s, f, Blk(pos))
    ensures ReadStep(s, f, pos, end).1.Read? ==> FreshBefore(ReadStep(s, f, pos, end).0, f, pos + Chunk(pos, end), end)
  {
    FreshStep(s, GetBlock(s, f, Blk(pos)).0, f, pos, end);
  }

  lemma ReadFails(s: Fs, g: (Fs, ReadResult), f: nat, pos: nat, mid: nat, end: nat)
    requires Wf(s) && f < |s.files| && pos <= mid <= end && ReadSpec(s, g, f, pos, mid)
    ensures Inv(g.0) && |g.0.files| == |s.files| && g.0.files[f].size == s.files[f].size
    ensures g.1.ReadFailed? ==> ReadSpec(s, g, f, pos, end)
  {
  }

  lemma ReadUnrolled(s: Fs, f: nat, pos: nat, end: nat)
    requires Wf(s) && |s.blocks| < WORD && f < |s.files| && pos < end
    ensures var g := ReadStep(s, f, pos, end);
      var rest := ReadLoop(g.0, f, pos + Chunk(pos, end), end);
      ReadLoop(s, f, pos, end) ==
        if g.1.ReadFailed? then g
        else (rest.0, if rest.1.ReadFailed? then rest.1 else Read(g.1.bytes + rest.1.bytes))
  {
  }

  lemma InvWf(s: Fs)
    requires Inv(s)
    ensures Wf(s)
  {
  }

  lemma ReadsNothing(s: Fs, f: nat, pos: nat, end: nat)
    requires Inv(s) && |s.blocks| < WORD && f < |s.files| && pos == end
    ensures ReadSpec(s, ReadLoop(s, f, pos, end), f, pos, end)
  {
  }

  lemma {:induction false} ReadLoopSpec(s: Fs, f: nat, pos: nat, end: nat)
    requires Inv(s) && |s.blocks| < WORD && f < |s.files| && pos <= end <= s.files[f].size
    requires FreshBefore(s, f, pos, end)
    ensures ReadSpec(s, ReadLoop(s, f, pos, end), f, pos, end)
    decreases end - pos
  {
    hide *;
    InvWf(s);
    if pos == end {
      ReadsNothing(s, f, pos, end);
    } else {
      var g, mid := ReadStep(s, f, pos, end), pos + Chunk(pos, end);
      FreshReadStep(s, f, pos, end);
      ReadStepSpec(s, f, pos, end);
      ReadUnrolled(s, f, pos, end);
      ReadFails(s, g, f, pos, mid, end);
      if g.1.Read? {
        ReadLoopSpec(g.0, f, mid, end);
        ReadCompose(s, g, ReadLoop(g.0, f, mid, end), f, pos, mid, end);
      }
    }
  }

  // file_read answers exactly the bytes of [offset, min(offset + count, size)); bytes with a value keep
  // it, and only holes of f can gain one.
  lemma FileReadSpec(s: Fs, f: nat, count: nat, offset: nat)
    requires Inv(s) && |s.blocks| < WORD && f < |s.files|
    requires FreshBefore(s, f, offset, ReadEnd(s, f, count, offset))
    ensures ReadSpec(s, FileRead(s, f, count, offset), f, offset, ReadEnd(s, f, count, offset))
  {
    var end := ReadEnd(s, f, count, offset);
    if offset < s.files[f].size {
      ReadLoopSpec(s, f, offset, end);
    }
  }

  ghost predicate NoHoles(s: Fs, f: nat, pos: nat, end: nat)
    requires Wf(s) && f < |s.files|
  {
    forall p: nat :: pos <= p < end ==> ByteAt(s, f, p).Some?
  }

  lemma StepWithoutHole(s: Fs, f: nat, pos: nat, end: nat)
    requires Inv(s) && |s.blocks| < WORD && f < |s.files| && pos < end <= s.files[f].size
    requires NoHoles(s, f, pos, end)
    ensures NoHoles(s, f, pos + Chunk(pos, end), end) && FreshIndirect(s, f, Blk(pos))
    ensures ReadStep(s, f, pos, end).0 == s && ReadStep(s, f, pos, end).1.Read?
  {
    assert ByteAt(s, f, pos).Some?;
    InsideFile(s.files[f].size, pos);
    assert RefOk(s, f, Blk(pos)) && RefOk(s, f, PTR);
    assert FreshIndirect(s, f, Blk(pos));
    GetBlockInv(s, f, Blk(pos));
  }

  lemma FreshWithoutHoles(s: Fs, f: nat, pos: nat, end: nat)
    requires Wf(s) && f < |s.files| && NoHoles(s, f, pos, end)
    ensures FreshBefore(s, f, pos, end)
  {
    var p := Max(pos, NDIRECT * BLKSIZE);
    BlkOff(p);
    BlkOff(pos);
    assert p < end ==> ByteAt(s, f, p).Some?;
  }

  // Without holes in the range a read always succeeds and changes nothing.
  lemma {:induction false} ReadWithoutHoles(s: Fs, f: nat, pos: nat, end: nat)
    requires Inv(s) && |s.blocks| < WORD && f < |s.files| && pos <= end <= s.files[f].size
    requires NoHoles(s, f, pos, end)
    ensures ReadLoop(s, f, pos, end).0 == s && ReadLoop(s, f, pos, end).1.Read?
    decreases end - pos
  {
    hide ReadStep, Inv, NoHoles, FreshIndirect, Chunk, Blk;
    if pos < end {
      StepWithoutHole(s, f, pos, end);
      ReadWithoutHoles(s, f, pos + Chunk(pos, end), end);
    }
  }

  // ------------------------------------------------------------------
  // file_set_size and file_truncate_blocks
  // ------------------------------------------------------------------

  function FreeBlocks(s: Fs): set<nat> {
    set b: nat | b < |s.free| && s.free[b]
  }

  // file_free_block: a walk that fails, or an empty slot, changes nothing.
  function FreeSlot(s: Fs, f: nat, bno: nat): (s': Fs)
    requires Wf(s) && |s.blocks| < WORD && f < |s.files|
    ensures Wf(s') && |s'.files| == |s.files| && |s'.blocks| == |s.blocks|
  {
    var w := BlockWalk(s, f, bno, false);
    if w.1.Failed? then w.0
    else if Ref(w.0, f, bno) != 0 && Ref(w.0, f, bno) < |s.blocks| then Release(w.0, f, bno)
    else w.0
  }

  function TruncateLoop(s: Fs, f: nat, bno: nat, oldBlocks: nat): (s': Fs)
    requires Wf(s) && |s.blocks| < WORD && f < |s.files|
    ensures Wf(s') && |s'.files| == |s.files| && |s'.blocks| == |s.blocks|
    decreases oldBlocks - bno
  {
    if bno >= oldBlocks then s else TruncateLoop(FreeSlot(s, f, bno), f, bno + 1, oldBlocks)
  }

  function TruncateBlocks(s: Fs, f: nat, newSize: nat): (s': Fs)
    requires Wf(s) && |s.blocks| < WORD && f < |s.files|
    ensures Wf(s') && |s'.files| == |s.files| && |s'.blocks| == |s.blocks|
  {
    var s1 := TruncateLoop(s, f, Ceil(newSize), Ceil(s.files[f].size));
    if Ceil(newSize) <= NDIRECT && s1.files[f].indirect != 0 && s1.files[f].indirect < |s.blocks| then
      Release(s1, f, PTR)
    else s1
  }

  function SetSize(s: Fs, f: nat, newSize: nat): (s': Fs)
    requires Wf(s) && |s.blocks| < WORD && f < |s.files|
    ensures Wf(s') && |s'.files| == |s.files| && |s'.blocks| == |s.blocks|
  {
    var s1 := if s.files[f].size > newSize then TruncateBlocks(s, f, newSize) else s;
    s1.(files := s1.files[f := s1.files[f].(size := newSize)])
  }

  // Non-zero slots in [lo, hi).
  function Used(s: Fs, f: nat, lo: nat, hi: nat): nat
    requires Wf(s) && f < |s.files|
    decreases hi - lo
  {
    if lo >= hi then 0
    else (if lo < NSLOTS && Ref(s, f, lo) != 0 then 1 else 0) + Used(s, f, lo + 1, hi)
  }

  lemma ReleaseData(s: Fs, f: nat, k: nat)
    requires Inv(s) && f < |s.files| && k <= PTR && Ref(s, f, k) != 0
    ensures Ref(s, f, k) < |s.blocks| && KeepsData(s, Release(s, f, k)) && KeepsSizes(s, Release(s, f, k))
    ensures Ref(s, f, k) !in FreeBlocks(s)
    ensures FreeBlocks(Release(s, f, k)) == FreeBlocks(s) + {Ref(s, f, k)}
  {
    assert RefOk(s, f, k) && RefOk(s, f, PTR) && OwnOk(s, Ref(s, f, k));
    var s', b := Release(s, f, k), Ref(s, f, k);
    assert s'.free == s.free[b := true];
  }

  // Slots [lo, hi) of f become empty; all other data slots stay.
  ghost predicate Cut(s: Fs, s': Fs, f: nat, lo: nat, hi: nat)
    requires Wf(s) && Wf(s') && f < |s.files|
  {
    && |s'.files| == |s.files|
    && (forall g: nat, l: nat :: g < |s.files| && l < PTR ==>
          Ref(s', g, l) == if g == f && lo <= l < hi then 0 else Ref(s, g, l))
    && (forall g :: 0 <= g < |s.files| ==> s'.files[g].indirect == s.files[g].indirect)
  }

  ghost predicate FreedExactly(s: Fs, s': Fs, n: nat) {
    FreeBlocks(s) <= FreeBlocks(s') && |FreeBlocks(s')| == |FreeBlocks(s)| + n
  }

  lemma FreeSlotSpec(s: Fs, f: nat, bno: nat)
    requires Inv(s) && |s.blocks| < WORD && f < |s.files| && bno < Ceil(s.files[f].size)
    ensures var s' := FreeSlot(s, f, bno);
      && Inv(s') && KeepsData(s, s') && KeepsSizes(s, s') && Cut(s, s', f, bno, bno + 1)
      && FreedExactly(s, s', if bno < NSLOTS && Ref(s, f, bno) != 0 then 1 else 0)
  {
    CeilSlot(s.files[f].size, bno);
    assert RefOk(s, f, PTR);
    if bno < NSLOTS && Ref(s, f, bno) != 0 {
      ReleaseInv(s, f, bno);
      ReleaseData(s, f, bno);
      forall g: nat, l: nat | g < |s.files| && l <= PTR
        ensures Ref(Release(s, f, bno), g, l) == if g == f && l == bno then 0 else Ref(s, g, l)
      {
        ReleaseRefs(s, f, bno, g, l);
      }
    }
  }

  // The same for bytes.
  ghost predicate CutBytes(s: Fs, s': Fs, f: nat, lo: nat, hi: nat)
    requires Wf(s) && Wf(s') && f < |s.files|
  {
    && |s'.files| == |s.files|
    && (forall g: nat, p: nat :: g < |s.files| ==>
          ByteAt(s', g, p) == if g == f && lo <= Blk(p) < hi then None else ByteAt(s, g, p))
  }

  lemma CutGivesBytes(s: Fs, s': Fs, f: nat, lo: nat, hi: nat)
    requires Inv(s) && Wf(s') && f < |s.files| && KeepsData(s, s') && Cut(s, s', f, lo, hi)
    ensures CutBytes(s, s', f, lo, hi)
  {
    forall g: nat, p: nat | g < |s.files|
      ensures ByteAt(s', g, p) == if g == f && lo <= Blk(p) < hi then None else ByteAt(s, g, p)
    {
      if Blk(p) < NSLOTS {
        assert RefOk(s, g, Blk(p));
      }
    }
  }

  lemma CutTrans(a: Fs, b: Fs, c: Fs, f: nat, lo: nat, mid: nat, hi: nat)
    requires Wf(a) && Wf(b) && Wf(c) && f < |a.files| && lo <= mid <= hi
    requires Cut(a, b, f, lo, mid) && Cut(b, c, f, mid, hi)
    requires CutBytes(a, b, f, lo, mid) && CutBytes(b, c, f, mid, hi)
    ensures Cut(a, c, f, lo, hi) && CutBytes(a, c, f, lo, hi)
  {
  }

  lemma {:induction false} UsedSame(s: Fs, s': Fs, f: nat, lo: nat, hi: nat, cut: nat)
    requires Wf(s) && Wf(s') && f < |s.files| && cut < lo && Cut(s, s', f, cut, cut + 1)
    ensures Used(s', f, lo, hi) == Used(s, f, lo, hi)
    decreases hi - lo
  {
    if lo < hi {
      UsedSame(s, s', f, lo + 1, hi, cut);
    }
  }

  ghost predicate TruncSpec(s: Fs, s': Fs, f: nat, lo: nat, hi: nat)
    requires Wf(s) && f < |s.files|
  {
    && Inv(s') && KeepsSizes(s, s') && |s'.blocks| == |s.blocks|
    && Cut(s, s', f, lo, hi) && CutBytes(s, s', f, lo, hi)
    && FreedExactly(s, s', Used(s, f, lo, hi))
  }

  lemma TruncStep(s: Fs, f: nat, bno: nat)
    requires Inv(s) && |s.blocks| < WORD && f < |s.files| && bno < Ceil(s.files[f].size)
    ensures TruncSpec(s, FreeSlot(s, f, bno), f, bno, bno + 1)
  {
    FreeSlotSpec(s, f, bno);
    CutGivesBytes(s, FreeSlot(s, f, bno), f, bno, bno + 1);
    assert Used(s, f, bno, bno + 1) == if bno < NSLOTS && Ref(s, f, bno) != 0 then 1 else 0;
  }

  lemma TruncCompose(a: Fs, b: Fs, c: Fs, f: nat, lo: nat, hi: nat)
    requires Wf(a) && f < |a.files| && lo < hi && TruncSpec(a, b, f, lo, lo + 1) && TruncSpec(b, c, f, lo + 1, hi)
    ensures TruncSpec(a, c, f, lo, hi)
  {
    CutTrans(a, b, c, f, lo, lo + 1, hi);
    UsedSame(a, b, f, lo + 1, hi, lo);
    assert Used(a, f, lo, lo + 1) + Used(a, f, lo + 1, hi) == Used(a, f, lo, hi);
  }

  lemma {:induction false} TruncateLoopSpec(s: Fs, f: nat, bno: nat, hi: nat)
    requires Inv(s) && |s.blocks| < WORD && f < |s.files| && bno <= hi <= Ceil(s.files[f].size)
    ensures TruncSpec(s, TruncateLoop(s, f, bno, hi), f, bno, hi)
    decreases hi - bno
  {
    if bno < hi {
      TruncStep(s, f, bno);
      var s1 := FreeSlot(s, f, bno);
      TruncateLoopSpec(s1, f, bno + 1, hi);
      TruncCompose(s, s1, TruncateLoop(s1, f, bno + 1, hi), f, bno, hi);
    }
  }

  lemma CeilMonotone(a: nat, b: nat)
    requires a <= b
    ensures Ceil(a) <= Ceil(b)
  {
    BlkOff(a + BLKSIZE - 1);
    BlkOff(b + BLKSIZE - 1);
  }

  // Dropping the empty indirect block forgets no data slot.
  lemma DropIndirect(s: Fs, f: nat, lo: nat)
    requires Inv(s) && f < |s.files| && s.files[f].indirect != 0 && lo <= NDIRECT
    requires forall l: nat :: lo <= l < PTR ==> Ref(s, f, l) == 0
    ensures s.files[f].indirect < |s.blocks|
    ensures var s' := Release(s, f, PTR);
      && Inv(s') && KeepsSizes(s, s')
      && (forall g: nat, l: nat :: g < |s.files| && l < PTR ==> Ref(s', g, l) == Ref(s, g, l))
      && (forall g: nat, p: nat :: g < |s.files| ==> ByteAt(s', g, p) == ByteAt(s, g, p))
      && FreedExactly(s, s', 1)
  {
    assert Ref(s, f, PTR) != 0 && RefOk(s, f, PTR);
    ReleaseInv(s, f, PTR);
    ReleaseData(s, f, PTR);
    var s' := Release(s, f, PTR);
    forall g: nat, l: nat | g < |s.files| && l < PTR ensures Ref(s', g, l) == Ref(s, g, l) {
      ReleaseRefs(s, f, PTR, g, l);
    }
    forall g: nat, p: nat | g < |s.files| ensures ByteAt(s', g, p) == ByteAt(s, g, p) {
      if Blk(p) < NSLOTS {
        assert RefOk(s, g, Blk(p));
      }
    }
  }

  predicate DropsIndirect(s: Fs, f: nat, newSize: nat)
    requires f < |s.files|
  {
    Ceil(newSize) <= NDIRECT && s.files[f].indirect != 0
  }

  // file_truncate_blocks frees each non-zero slot from ceil(newSize / 4096) on, once, and the indirect
  // block when no slot past the direct ones can be needed.
  lemma TruncateSpec(s: Fs, f: nat, newSize: nat)
    requires Inv(s) && |s.blocks| < WORD && f < |s.files| && newSize < s.files[f].size
    ensures var s', lo, hi := TruncateBlocks(s, f, newSize), Ceil(newSize), Ceil(s.files[f].size);
      && Inv(s') && KeepsSizes(s, s')
      && (forall l: nat :: lo <= l < PTR ==> Ref(s', f, l) == 0)
      && CutBytes(s, s', f, lo, hi)
      && FreedExactly(s, s', Used(s, f, lo, hi) + if DropsIndirect(s, f, newSize) then 1 else 0)
  {
    var lo, hi := Ceil(newSize), Ceil(s.files[f].size);
    CeilMonotone(newSize, s.files[f].size);
    TruncateLoopSpec(s, f, lo, hi);
    var s1 := TruncateLoop(s, f, lo, hi);
    forall l: nat | lo <= l < PTR ensures Ref(s1, f, l) == 0 {
      assert RefOk(s1, f, l);
    }
    assert RefOk(s1, f, PTR);
    if DropsIndirect(s, f, newSize) {
      DropIndirect(s1, f, lo);
    }
  }

  lemma NewSizeInv(s: Fs, f: nat, n: nat)
    requires Inv(s) && f < |s.files| && forall l: nat :: Ceil(n) <= l < PTR ==> Ref(s, f, l) == 0
    ensures var s' := s.(files := s.files[f := s.files[f].(size := n)]);
      && Inv(s')
      && (forall g: nat, p: nat :: g < |s.files| ==> ByteAt(s', g, p) == ByteAt(s, g, p))
  {
    var s' := s.(files := s.files[f := s.files[f].(size := n)]);
    forall g: nat, k: nat | g < |s.files| && k <= PTR ensures Ref(s', g, k) == Ref(s, g, k) {
    }
    forall b | 0 <= b < |s.blocks| ensures OwnOk(s', b) {
      assert OwnOk(s, b);
    }
    forall g, k | 0 <= g < |s.files| && 0 <= k <= PTR ensures RefOk(s', g, k) {
      assert RefOk(s, g, k);
    }
  }

  lemma BelowSize(p: nat, size: nat)
    requires p < size
    ensures Blk(p) < Ceil(size)
  {
    BlkOff(p);
    BlkOff(size + BLKSIZE - 1);
  }

  // file_set_size keeps ownership, every other file, and every byte below both sizes.  Shrinking raises
  // the number of free blocks by exactly the non-zero slots cut off, plus one for the indirect block
  // when it is dropped; growing allocates nothing.
  lemma SetSizeSpec(s: Fs, f: nat, newSize: nat)
    requires Inv(s) && |s.blocks| < WORD && f < |s.files|
    ensures var s', lo, hi := SetSize(s, f, newSize), Ceil(newSize), Ceil(s.files[f].size);
      && Inv(s') && s'.files[f].size == newSize
      && (forall g :: 0 <= g < |s.files| && g != f ==> s'.files[g].size == s.files[g].size)
      && (forall g: nat, p: nat :: g < |s.files| && (g != f || p < newSize) ==> ByteAt(s', g, p) == ByteAt(s, g, p))
      && FreedExactly(s, s', if s.files[f].size > newSize
                             then Used(s, f, lo, hi) + if DropsIndirect(s, f, newSize) then 1 else 0
                             else 0)
  {
    if s.files[f].size > newSize {
      TruncateSpec(s, f, newSize);
      var s1 := TruncateBlocks(s, f, newSize);
      NewSizeInv(s1, f, newSize);
      forall p: nat | p < newSize ensures Blk(p) < Ceil(newSize) {
        BelowSize(p, newSize);
      }
    } else {
      CeilMonotone(s.files[f].size, newSize);
      forall l: nat | Ceil(newSize) <= l < PTR ensures Ref(s, f, l) == 0 {
        assert RefOk(s, f, l);
      }
      NewSizeInv(s, f, newSize);
    }
  }

  // ------------------------------------------------------------------
  // file_write
  // ------------------------------------------------------------------

  function Splice(x: seq<bv8>, off: nat, data: seq<bv8>): (r: seq<bv8>)
    requires off + |data| <= |x|
    ensures |r| == |x|
    ensures forall i :: 0 <= i < |x| ==> r[i] == if off <= i < off + |data| then data[i - off] else x[i]
  {
    x[..off] + data + x[off + |data|..]
  }

  // memmove into block b.
  function Poke(s: Fs, b: nat, off: nat, data: seq<bv8>): (s': Fs)
    requires Wf(s) && b < |s.blocks| && off + |data| <= BLKSIZE
    ensures Wf(s') && |s'.blocks| == |s.blocks| && |s'.files| == |s.files|
  {
    s.(blocks := s.blocks[b := Bytes(Splice(AsBytes(s.blocks[b]), off, data))])
  }

  lemma PokeRefs(s: Fs, f: nat, k: nat, off: nat, data: seq<bv8>, g: nat, l: nat)
    requires Inv(s) && f < |s.files| && k < PTR && Ref(s, f, k) != 0 && off + |data| <= BLKSIZE
    requires g < |s.files| && l <= PTR
    ensures Ref(s, f, k) < |s.blocks|
    ensures Ref(Poke(s, Ref(s, f, k), off, data), g, l) == Ref(s, g, l)
  {
    assert RefOk(s, f, k) && RefOk(s, g, PTR);
  }

  lemma PokeInv(s: Fs, f: nat, k: nat, off: nat, data: seq<bv8>)
    requires Inv(s) && f < |s.files| && k < PTR && Ref(s, f, k) != 0 && off + |data| <= BLKSIZE
    ensures Ref(s, f, k) < |s.blocks| && Inv(Poke(s, Ref(s, f, k), off, data))
  {
    assert RefOk(s, f, k);
    var s' := Poke(s, Ref(s, f, k), off, data);
    forall b | 0 <= b < |s.blocks| ensures OwnOk(s', b) {
      assert OwnOk(s, b);
      if s.owner[b].Slot? {
        PokeRefs(s, f, k, off, data, s.owner[b].file, s.owner[b].slot);
      }
    }
    forall g, l | 0 <= g < |s.files| && 0 <= l <= PTR ensures RefOk(s', g, l) {
      assert RefOk(s, g, l);
      PokeRefs(s, f, k, off, data, g, l);
    }
  }

  lemma PokeByte(s: Fs, f: nat, k: nat, off: nat, data: seq<bv8>, g: nat, p: nat)
    requires Inv(s) && f < |s.files| && k < PTR && Ref(s, f, k) != 0 && off + |data| <= BLKSIZE && g < |s.files|
    ensures Ref(s, f, k) < |s.blocks|
    ensures ByteAt(Poke(s, Ref(s, f, k), off, data), g, p) ==
      if g == f && Blk(p) == k && off <= Off(p) < off + |data| then Some(data[Off(p) - off]) else ByteAt(s, g, p)
  {
    assert RefOk(s, f, k) && OwnOk(s, Ref(s, f, k));
    if Blk(p) < NSLOTS {
      assert RefOk(s, g, Blk(p));
      PokeRefs(s, f, k, off, data, g, Blk(p));
    }
  }

  // Bytes of f outside [pos, end) that have a value keep it; other files keep everything.
  ghost predicate KeepsOutside(s: Fs, s': Fs, f: nat, pos: nat, end: nat)
    requires Wf(s) && Wf(s')
  {
    && |s'.files| == |s.files|
    && (forall h: nat, p: nat ::
          h < |s.files| && (h != f || (!(pos <= p < end) && ByteAt(s, h, p).Some?)) ==> ByteAt(s', h, p) == ByteAt(s, h, p))
  }

  datatype WriteResult = Wrote | WriteFailed(error: Error)

  function WriteStep(s: Fs, f: nat, data: seq<bv8>, pos: nat): (r: (Fs, WriteResult))
    requires Wf(s) && |s.blocks| < WORD && f < |s.files| && Off(pos) + |data| <= BLKSIZE
    ensures Wf(r.0) && |r.0.files| == |s.files| && |r.0.blocks| == |s.blocks|
  {
    var g := GetBlock(s, f, Blk(pos));
    if g.1.GetFailed? then (g.0, WriteFailed(g.1.error))
    else if g.1.block >= |s.blocks| then (g.0, WriteFailed(Invalid))      // halted
    else (Poke(g.0, g.1.block, Off(pos), data), Wrote)
  }

  function WriteLoop(s: Fs, f: nat, buf: seq<bv8>, pos: nat, end: nat): (r: (Fs, WriteResult))
    requires Wf(s) && |s.blocks| < WORD && f < |s.files| && |buf| == end - pos
    ensures Wf(r.0) && |r.0.files| == |s.files| && |r.0.blocks| == |s.blocks|
    decreases end - pos
  {
    if pos >= end then (s, Wrote)
    else
      var bn := Chunk(pos, end);
      var g := WriteStep(s, f, buf[..bn], pos);
      if g.1.WriteFailed? then g else WriteLoop(g.0, f, buf[bn..], pos + bn, end)
  }

  // The size file_write leaves: larger if the request ends past it.
  function FileWrite(s: Fs, f: nat, buf: seq<bv8>, offset: nat): (r: (Fs, WriteResult))
    requires Wf(s) && |s.blocks| < WORD && f < |s.files|
    ensures Wf(r.0) && |r.0.files| == |s.files| && |r.0.blocks| == |s.blocks|
  {
    WriteLoop(Extended(s, f, offset + |buf|), f, buf, offset, offset + |buf|)
  }

  function Extended(s: Fs, f: nat, end: nat): (s': Fs)
    requires Wf(s) && |s.blocks| < WORD && f < |s.files|
    ensures Wf(s') && |s'.files| == |s.files| && |s'.blocks| == |s.blocks|
  {
    if end > s.files[f].size then SetSize(s, f, end) else s
  }

  ghost predicate WriteSpec(s: Fs, r: (Fs, WriteResult), f: nat, buf: seq<bv8>, pos: nat, end: nat)
    requires Wf(s) && f < |s.files|
  {
    && Inv(r.0) && KeepsSizes(s, r.0) && KeepsOutside(s, r.0, f, pos, end)
    && (r.1.Wrote? ==> HasBytes(r.0, f, pos, buf))
  }

  // A stretch that does not leave its block.
  lemma InBlock(pos: nat, n: nat, p: nat)
    requires Off(pos) + n <= BLKSIZE
    ensures pos <= p < pos + n <==> Blk(p) == Blk(pos) && Off(pos) <= Off(p) < Off(pos) + n
    ensures pos <= p < pos + n ==> Off(p) - Off(pos) == p - pos
  {
    BlkOff(p);
    BlkOff(pos);
  }

  lemma PokeAt(s: Fs, f: nat, pos: nat, data: seq<bv8>, h: nat, p: nat)
    requires Inv(s) && f < |s.files| && Blk(pos) < PTR && Ref(s, f, Blk(pos)) != 0 && Off(pos) + |data| <= BLKSIZE
    requires h < |s.files|
    ensures Ref(s, f, Blk(pos)) < |s.blocks|
    ensures ByteAt(Poke(s, Ref(s, f, Blk(pos)), Off(pos), data), h, p) ==
      if h == f && pos <= p < pos + |data| then Some(data[p - pos]) else ByteAt(s, h, p)
  {
    PokeByte(s, f, Blk(pos), Off(pos), data, h, p);
    InBlock(pos, |data|, p);
  }

  lemma PokeSpec(s: Fs, f: nat, pos: nat, data: seq<bv8>)
    requires Inv(s) && f < |s.files| && Blk(pos) < PTR && Ref(s, f, Blk(pos)) != 0 && Off(pos) + |data| <= BLKSIZE
    ensures Ref(s, f, Blk(pos)) < |s.blocks|
    ensures var s' := Poke(s, Ref(s, f, Blk(pos)), Off(pos), data);
      WriteSpec(s, (s', Wrote), f, data, pos, pos + |data|)
  {
    PokeInv(s, f, Blk(pos), Off(pos), data);
    var s' := Poke(s, Ref(s, f, Blk(pos)), Off(pos), data);
    forall h: nat, p: nat | h < |s.files|
      ensures ByteAt(s', h, p) == if h == f && pos <= p < pos + |data| then Some(data[p - pos]) else ByteAt(s, h, p)
    {
      PokeAt(s, f, pos, data, h, p);
    }
  }

  lemma KeepsThenWrite(a: Fs, b: Fs, r: (Fs, WriteResult), f: nat, buf: seq<bv8>, pos: nat, end: nat)
    requires Wf(a) && Wf(b) && f < |a.files| && KeepsBytes(a, b, f) && KeepsSizes(a, b)
    requires WriteSpec(b, r, f, buf, pos, end)
    ensures WriteSpec(a, r, f, buf, pos, end)
  {
  }

  lemma WriteStepSpec(s: Fs, f: nat, data: seq<bv8>, pos: nat)
    requires Inv(s) && |s.blocks| < WORD && f < |s.files| && pos < s.files[f].size
    requires Off(pos) + |data| <= BLKSIZE && FreshIndirect(s, f, Blk(pos))
    ensures WriteSpec(s, WriteStep(s, f, data, pos), f, data, pos, pos + |data|)
  {
    InsideFile(s.files[f].size, pos);
    GetBlockInv(s, f, Blk(pos));
    GetBlockBytes(s, f, Blk(pos));
    var g := GetBlock(s, f, Blk(pos));
    if g.1.Got? {
      PokeSpec(g.0, f, pos, data);
      KeepsThenWrite(s, g.0, (Poke(g.0, g.1.block, Off(pos), data), Wrote), f, data, pos, pos + |data|);
    }
  }

  lemma WriteCompose(s: Fs, g: (Fs, WriteResult), r: (Fs, WriteResult), f: nat, x: seq<bv8>, y: seq<bv8>,
      pos: nat, mid: nat, end: nat)
    requires Wf(s) && f < |s.files| && pos <= mid <= end && |x| == mid - pos && |y| == end - mid
    requires WriteSpec(s, g, f, x, pos, mid) && g.1.Wrote? && WriteSpec(g.0, r, f, y, mid, end)
    ensures WriteSpec(s, r, f, x + y, pos, end)
  {
    if r.1.Wrote? {
      assert HasBytes(r.0, f, pos, x);
      HasConcat(r.0, f, pos, x, y);
    }
  }

  lemma FreshWriteStep(s: Fs, f: nat, data: seq<bv8>, pos: nat, end: nat)
    requires Inv(s) && |s.blocks| < WORD && f < |s.files| && pos < end <= s.files[f].size
    requires |data| == Chunk(pos, end) && FreshBefore(s, f, pos, end)
    ensures FreshIndirect(s, f, Blk(pos))
    ensures WriteStep(s, f, data, pos).1.Wrote? ==> FreshBefore(WriteStep(s, f, data, pos).0, f, pos + Chunk(pos, end), end)
  {
    var g := GetBlock(s, f, Blk(pos));
    FreshStep(s, g.0, f, pos, end);
    InsideFile(s.files[f].size, pos);
    GetBlockInv(s, f, Blk(pos));
    if g.1.Got? {
      assert RefOk(g.0, f, Blk(pos)) && OwnOk(g.0, g.1.block);
      FreshStep(s, WriteStep(s, f, data, pos).0, f, pos, end);
    }
  }

  lemma WriteUnrolled(t: Fs, f: nat, buf: seq<bv8>, pos: nat, end: nat)
    requires Wf(t) && |t.blocks| < WORD && f < |t.files| && pos < end && |buf| == end - pos
    ensures var g := WriteStep(t, f, buf[..Chunk(pos, end)], pos);
      WriteLoop(t, f, buf, pos, end) ==
        if g.1.WriteFailed? then g else WriteLoop(g.0, f, buf[Chunk(pos, end)..], pos + Chunk(pos, end), end)
  {
  }

  lemma WritesNoBlock(t: Fs, f: nat, buf: seq<bv8>, pos: nat, end: nat)
    requires Wf(t) && |t.blocks| < WORD && f < |t.files| && pos >= end && |buf| == end - pos
    ensures WriteLoop(t, f, buf, pos, end).0 == t
  {
  }

  lemma {:induction false} WriteLoopSpec(s: Fs, f: nat, buf: seq<bv8>, pos: nat, end: nat)
    requires Inv(s) && |s.blocks| < WORD && f < |s.files| && pos <= end <= s.files[f].size && |buf| == end - pos
    requires FreshBefore(s, f, pos, end)
    ensures WriteSpec(s, WriteLoop(s, f, buf, pos, end), f, buf, pos, end)
    decreases end - pos
  {
    if pos < end {
      var mid := pos + Chunk(pos, end);
      var x, y := buf[..Chunk(pos, end)], buf[Chunk(pos, end)..];
      assert buf == x + y;
      FreshWriteStep(s, f, x, pos, end);
      WriteStepSpec(s, f, x, pos);
      var g := WriteStep(s, f, x, pos);
      if g.1.Wrote? {
        WriteLoopSpec(g.0, f, y, mid, end);
        WriteCompose(s, g, WriteLoop(g.0, f, y, mid, end), f, x, y, pos, mid, end);
      } else {
        WriteFails(s, g, f, x, buf, pos, mid, end);
      }
    }
  }

  lemma WriteFails(s: Fs, g: (Fs, WriteResult), f: nat, x: seq<bv8>, buf: seq<bv8>, pos: nat, mid: nat, end: nat)
    requires Wf(s) && f < |s.files| && pos <= mid <= end && g.1.WriteFailed? && WriteSpec(s, g, f, x, pos, mid)
    ensures WriteSpec(s, g, f, buf, pos, end)
  {
  }

  // Growing a file changes its size and nothing else.
  lemma ExtendedSame(s: Fs, f: nat, end: nat)
    requires Wf(s) && |s.blocks| < WORD && f < |s.files|
    ensures Extended(s, f, end) == s.(files := s.files[f := s.files[f].(size := Max(s.files[f].size, end))])
  {
  }

  lemma FreshSame(s: Fs, s1: Fs, f: nat, pos: nat, end: nat)
    requires Wf(s) && f < |s.files| && exists n :: s1 == s.(files := s.files[f := s.files[f].(size := n)])
    ensures Wf(s1) && NextIndirect(s1, f, pos) == NextIndirect(s, f, pos)
    ensures FreshBefore(s1, f, pos, end) <==> FreshBefore(s, f, pos, end)
  {
    DirectHolesSame(s, s1, f, Blk(pos));
    NthFreeSame(s, s1, 2, DirectHoles(s, f, Blk(pos)));
  }

  // Growing a file changes no byte of any file.
  lemma ExtendedBytes(s: Fs, f: nat, end: nat)
    requires Inv(s) && |s.blocks| < WORD && f < |s.files|
    ensures var s1 := Extended(s, f, end); KeepsOutside(s, s1, f, 0, 0)
  {
    SetSizeSpec(s, f, end);
    var s1 := Extended(s, f, end);
    forall h: nat, p: nat | h < |s.files| ensures ByteAt(s1, h, p) == ByteAt(s, h, p) {
      if Blk(p) < NSLOTS {
        assert Ref(s1, h, Blk(p)) == Ref(s, h, Blk(p));
      }
    }
  }

  lemma ExtendThenWrite(s: Fs, s1: Fs, r: (Fs, WriteResult), f: nat, buf: seq<bv8>, pos: nat, end: nat)
    requires Wf(s) && Wf(s1) && f < |s1.files| && KeepsOutside(s, s1, f, 0, 0) && WriteSpec(s1, r, f, buf, pos, end)
    ensures Inv(r.0) && KeepsOutside(s, r.0, f, pos, end)
    ensures |r.0.files| == |s1.files| && forall g :: 0 <= g < |s1.files| ==> r.0.files[g].size == s1.files[g].size
    ensures r.1.Wrote? ==> HasBytes(r.0, f, pos, buf)
  {
  }

  lemma WritesExtended(s: Fs, f: nat, buf: seq<bv8>, offset: nat)
    requires Inv(s) && |s.blocks| < WORD && f < |s.files|
    ensures var end := offset + |buf|;
      var s1 := Extended(s, f, end);
      && Inv(s1) && end <= s1.files[f].size
      && s1 == s.(files := s.files[f := s.files[f].(size := Max(s.files[f].size, end))])
      && FileWrite(s, f, buf, offset) == WriteLoop(s1, f, buf, offset, end)
  {
    SetSizeSpec(s, f, offset + |buf|);
    ExtendedSame(s, f, offset + |buf|);
  }

  // file_write: on success the bytes of f are the old ones with buf spliced in at offset, the size is the
  // larger of the old one and the end of the request; in every case no other file changes, no byte of f
  // outside the request changes, and block ownership is kept.
  lemma FileWriteSpec(s: Fs, f: nat, buf: seq<bv8>, offset: nat)
    requires Inv(s) && |s.blocks| < WORD && f < |s.files|
    requires FreshBefore(s, f, offset, offset + |buf|)
    ensures var r := FileWrite(s, f, buf, offset);
      && Inv(r.0)
      && (forall g :: 0 <= g < |s.files| ==>
            r.0.files[g].size == if g == f then Max(s.files[f].size, offset + |buf|) else s.files[g].size)
      && KeepsOutside(s, r.0, f, offset, offset + |buf|)
      && (r.1.Wrote? ==> HasBytes(r.0, f, offset, buf))
  {
    hide *;
    InvWf(s);
    var end := offset + |buf|;
    var s1, r := Extended(s, f, end), FileWrite(s, f, buf, offset);
    WritesExtended(s, f, buf, offset);
    FreshSame(s, s1, f, offset, end);
    WriteLoopSpec(s1, f, buf, offset, end);
    ExtendedBytes(s, f, end);
    ExtendThenWrite(s, s1, r, f, buf, offset, end);
  }

  lemma HasNoHoles(s: Fs, f: nat, pos: nat, x: seq<bv8>)
    requires Wf(s) && f < |s.files| && HasBytes(s, f, pos, x)
    ensures NoHoles(s, f, pos, pos + |x|)
  {
    forall p: nat | pos <= p < pos + |x| ensures ByteAt(s, f, p).Some? {
      assert ByteAt(s, f, pos + (p - pos)) == Some(x[p - pos]);
    }
  }

  lemma HasUnique(s: Fs, f: nat, pos: nat, x: seq<bv8>, y: seq<bv8>)
    requires Wf(s) && f < |s.files| && |x| == |y| && HasBytes(s, f, pos, x) && HasBytes(s, f, pos, y)
    ensures x == y
  {
    forall i: nat | i < |x| ensures x[i] == y[i] {
      assert Some(x[i]) == ByteAt(s, f, pos + i) == Some(y[i]);
    }
  }

  lemma LoopReadsWhatItHas(s: Fs, f: nat, x: seq<bv8>, pos: nat, end: nat)
    requires Inv(s) && |s.blocks| < WORD && f < |s.files| && pos <= end == pos + |x|
    requires end <= s.files[f].size && HasBytes(s, f, pos, x)
    ensures ReadLoop(s, f, pos, end) == (s, Read(x))
  {
    HasNoHoles(s, f, pos, x);
    ReadWithoutHoles(s, f, pos, end);
    FreshWithoutHoles(s, f, pos, end);
    ReadLoopSpec(s, f, pos, end);
    HasUnique(s, f, pos, x, ReadLoop(s, f, pos, end).1.bytes);
  }

  lemma ReadsWhatItHas(s: Fs, f: nat, x: seq<bv8>, pos: nat)
    requires Inv(s) && |s.blocks| < WORD && f < |s.files| && x != []
    requires pos + |x| <= s.files[f].size && HasBytes(s, f, pos, x)
    ensures FileRead(s, f, |x|, pos) == (s, Read(x))
  {
    var end := ReadEnd(s, f, |x|, pos);
    assert end == pos + |x|;
    LoopReadsWhatItHas(s, f, x, pos, end);
  }

  // What was written is what is read back.
  lemma ReadBack(s: Fs, f: nat, buf: seq<bv8>, offset: nat)
    requires Inv(s) && |s.blocks| < WORD && f < |s.files|
    requires FreshBefore(s, f, offset, offset + |buf|)
    requires FileWrite(s, f, buf, offset).1.Wrote? && buf != []
    ensures var s' := FileWrite(s, f, buf, offset).0; FileRead(s', f, |buf|, offset) == (s', Read(buf))
  {
    FileWriteSpec(s, f, buf, offset);
    ReadsWhatItHas(FileWrite(s, f, buf, offset).0, f, buf, offset);
  }
}
