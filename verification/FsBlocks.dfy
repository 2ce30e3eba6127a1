// The block layer of fs/fs.c: the free-block bitmap, the block map of a file, and who owns which block.
module FsBlocks {
  import opened Wrappers

  const BLKSIZE: nat := 4096
  const NDIRECT: nat := 10
  const NINDIRECT: nat := 1024
  const NSLOTS: nat := 1034          // NDIRECT + NINDIRECT
  const PTR: nat := 1034             // stands for the field f_indirect
  const BLKBITSIZE: nat := 32768
  const WORD: nat := 0x1_0000_0000

  // ------------------------------------------------------------------
  // Block contents
  // ------------------------------------------------------------------

  // The same 4096 bytes, read as bytes or as 1024 little-endian 32-bit words.
  datatype Block = Bytes(bytes: seq<bv8>) | Words(words: seq<nat>)

  predicate BlockOk(b: Block) {
    match b
    case Bytes(x) => |x| == BLKSIZE
    case Words(w) => |w| == NINDIRECT && forall i :: 0 <= i < NINDIRECT ==> w[i] < WORD
  }

  function Word(b0: bv8, b1: bv8, b2: bv8, b3: bv8): (w: nat)
    ensures w < WORD
  {
    b0 as nat + 0x100 * (b1 as nat) + 0x1_0000 * (b2 as nat) + 0x100_0000 * (b3 as nat)
  }

  function Digit(w: nat, k: nat): (d: nat)
    ensures d < 0x100
  {
    if k == 0 then w % 0x100
    else if k == 1 then w / 0x100 % 0x100
    else if k == 2 then w / 0x1_0000 % 0x100
    else w / 0x100_0000 % 0x100
  }

  function ToOctet(d: nat): (o: bv8)
    requires d < 0x100
    ensures o as nat == d
  {
    if d == 0 then 0 else ToOctet(d - 1) + 1
  }

  function Octet(w: nat, k: nat): (o: bv8)
    ensures o as nat == Digit(w, k)
  {
    ToOctet(Digit(w, k))
  }

  function WordsOf(x: seq<bv8>): (w: seq<nat>)
    ensures |w| == |x| / 4 && forall i :: 0 <= i < |w| ==> w[i] < WORD
  {
    if |x| < 4 then [] else [Word(x[0], x[1], x[2], x[3])] + WordsOf(x[4..])
  }

  function BytesOf(w: seq<nat>): (x: seq<bv8>)
    ensures |x| == 4 * |w|
  {
    if w == [] then []
    else [Octet(w[0], 0), Octet(w[0], 1), Octet(w[0], 2), Octet(w[0], 3)] + BytesOf(w[1..])
  }

  function AsWords(b: Block): (w: seq<nat>)
    requires BlockOk(b)
    ensures |w| == NINDIRECT && forall i :: 0 <= i < NINDIRECT ==> w[i] < WORD
  {
    match b
    case Bytes(x) => WordsOf(x)
    case Words(w) => w
  }

  function AsBytes(b: Block): (x: seq<bv8>)
    requires BlockOk(b)
    ensures |x| == BLKSIZE
  {
    match b
    case Bytes(x) => x
    case Words(w) => BytesOf(w)
  }

  lemma Digits(w: nat)
    requires w < WORD
    ensures Digit(w, 0) + 0x100 * Digit(w, 1) + 0x1_0000 * Digit(w, 2) + 0x100_0000 * Digit(w, 3) == w
  {
    assert w / 0x100 / 0x100 == w / 0x1_0000 && w / 0x1_0000 / 0x100 == w / 0x100_0000;
  }

  // Reading words back from the bytes of words gives the words.
  lemma {:induction false} WordsRoundTrip(w: seq<nat>)
    requires forall i :: 0 <= i < |w| ==> w[i] < WORD
    ensures WordsOf(BytesOf(w)) == w
  {
    if w != [] {
      Digits(w[0]);
      WordsRoundTrip(w[1..]);
      assert BytesOf(w)[4..] == BytesOf(w[1..]);
    }
  }

  // Words are little-endian.
  lemma {:induction false} WordsLittleEndian(x: seq<bv8>, i: nat)
    requires 4 * i + 4 <= |x|
    ensures i < |WordsOf(x)|
    ensures WordsOf(x)[i] == x[4 * i] as nat + 0x100 * (x[4 * i + 1] as nat)
                             + 0x1_0000 * (x[4 * i + 2] as nat) + 0x100_0000 * (x[4 * i + 3] as nat)
  {
    if i > 0 {
      WordsLittleEndian(x[4..], i - 1);
    }
  }

  // ------------------------------------------------------------------
  // State
  // ------------------------------------------------------------------

  // The fields of struct File this layer uses.
  datatype File = File(size: nat, direct: seq<nat>, indirect: nat)

  // Bookkeeping: the slot that names a block.
  datatype Owner = Nobody | System | Slot(file: nat, slot: nat)

  datatype Fs = Fs(
    free: seq<bool>, blocks: seq<Block>, files: seq<File>, halted: bool, owner: seq<Owner>)

  predicate Wf(s: Fs) {
    && |s.free| == |s.blocks| == |s.owner|
    && (forall b :: 0 <= b < |s.blocks| ==> BlockOk(s.blocks[b]))
    && (forall f :: 0 <= f < |s.files| ==> |s.files[f].direct| == NDIRECT)
  }

  // p / BLKSIZE and p % BLKSIZE, by repeated subtraction (BlkOff).
  function Blk(p: nat): nat {
    if p < BLKSIZE then 0 else 1 + Blk(p - BLKSIZE)
  }

  function Off(p: nat): (o: nat)
    ensures o < BLKSIZE
  {
    if p < BLKSIZE then p else Off(p - BLKSIZE)
  }

  lemma {:induction false} BlkOff(p: nat)
    ensures Blk(p) == p / BLKSIZE && Off(p) == p % BLKSIZE && p == BLKSIZE * Blk(p) + Off(p)
  {
    if p >= BLKSIZE {
      BlkOff(p - BLKSIZE);
    }
  }

  // Blocks needed for size bytes.
  function Ceil(size: nat): nat {
    Blk(size + BLKSIZE - 1)
  }

  // Blocks 0 and 1 and the bitmap blocks.
  predicate Reserved(s: Fs, b: nat) {
    b < 2 || (b - 2) * BLKBITSIZE < |s.blocks|
  }

  // The block number in slot k of file f; slot PTR is f_indirect.
  function Ref(s: Fs, f: nat, k: nat): nat
    requires Wf(s) && f < |s.files| && k <= PTR
  {
    var x := s.files[f];
    if k < NDIRECT then x.direct[k]
    else if k == PTR then x.indirect
    else if x.indirect == 0 || x.indirect >= |s.blocks| then 0
    else AsWords(s.blocks[x.indirect])[k - NDIRECT]
  }

  predicate OwnOk(s: Fs, b: nat)
    requires Wf(s) && b < |s.blocks|
  {
    && (s.free[b] <==> s.owner[b] == Nobody)
    && (s.owner[b] == System <==> Reserved(s, b))
    && (s.owner[b].Slot? ==>
          var f, k := s.owner[b].file, s.owner[b].slot;
          f < |s.files| && k <= PTR && Ref(s, f, k) == b
          && (k == PTR ==> s.blocks[b].Words?) && (k < PTR ==> s.blocks[b].Bytes?))
  }

  predicate RefOk(s: Fs, f: nat, k: nat)
    requires Wf(s) && f < |s.files| && k <= PTR
  {
    var b := Ref(s, f, k);
    b != 0 ==> b < |s.blocks| && s.owner[b] == Slot(f, k) && (k == PTR || k < Ceil(s.files[f].size))
  }

  ghost predicate Inv(s: Fs) {
    && Wf(s) && !s.halted
    && (forall b :: 0 <= b < |s.blocks| ==> OwnOk(s, b))
    && (forall f, k :: 0 <= f < |s.files| && 0 <= k <= PTR ==> RefOk(s, f, k))
  }

  // The same without bookkeeping: a bit says in use exactly when the block is reserved or named, no
  // block is named twice, and slots at or past ceil(size / 4096) are zero.
  ghost predicate Named(s: Fs, b: nat)
    requires Wf(s)
  {
    exists f, k :: 0 <= f < |s.files| && 0 <= k <= PTR && Ref(s, f, k) == b
  }

  predicate Apart(s: Fs, f: nat, k: nat, g: nat, l: nat)
    requires Wf(s) && f < |s.files| && k <= PTR && g < |s.files| && l <= PTR
  {
    Ref(s, f, k) != 0 && Ref(s, f, k) == Ref(s, g, l) ==> f == g && k == l
  }

  predicate InRange(s: Fs, f: nat, k: nat)
    requires Wf(s) && f < |s.files| && k <= PTR
  {
    Ref(s, f, k) != 0 ==>
      Ref(s, f, k) < |s.blocks| && !Reserved(s, Ref(s, f, k)) && (k == PTR || k < Ceil(s.files[f].size))
  }

  ghost predicate Sound(s: Fs) {
    && Wf(s)
    && (forall b :: 1 <= b < |s.blocks| ==> (!s.free[b] <==> Reserved(s, b) || Named(s, b)))
    && (forall f, k, g, l ::
          0 <= f < |s.files| && 0 <= k <= PTR && 0 <= g < |s.files| && 0 <= l <= PTR ==> Apart(s, f, k, g, l))
    && (forall f, k :: 0 <= f < |s.files| && 0 <= k <= PTR ==> InRange(s, f, k))
  }

  lemma InvSound(s: Fs)
    requires Inv(s)
    ensures Sound(s)
  {
    forall b | 1 <= b < |s.blocks| ensures !s.free[b] <==> Reserved(s, b) || Named(s, b) {
      assert OwnOk(s, b);
      if s.owner[b].Slot? {
        assert Ref(s, s.owner[b].file, s.owner[b].slot) == b;
      }
      if Named(s, b) {
        var f, k :| 0 <= f < |s.files| && 0 <= k <= PTR && Ref(s, f, k) == b;
        assert RefOk(s, f, k);
      }
    }
    forall f, k, g, l | 0 <= f < |s.files| && 0 <= k <= PTR && 0 <= g < |s.files| && 0 <= l <= PTR
      ensures Apart(s, f, k, g, l)
    {
      assert RefOk(s, f, k) && RefOk(s, g, l);
    }
    forall f, k | 0 <= f < |s.files| && 0 <= k <= PTR ensures InRange(s, f, k) {
      assert RefOk(s, f, k);
      if Ref(s, f, k) != 0 {
        assert OwnOk(s, Ref(s, f, k));
      }
    }
  }

  // ------------------------------------------------------------------
  // The two changes every operation is made of
  // ------------------------------------------------------------------

  function SetSlot(s: Fs, f: nat, k: nat, b: nat): (s': Fs)
    requires Wf(s) && f < |s.files| && k <= PTR && b < WORD
    ensures Wf(s') && |s'.files| == |s.files| && |s'.blocks| == |s.blocks|
  {
    var x := s.files[f];
    if k < NDIRECT then s.(files := s.files[f := x.(direct := x.direct[k := b])])
    else if k == PTR then s.(files := s.files[f := x.(indirect := b)])
    else if x.indirect == 0 || x.indirect >= |s.blocks| then s
    else s.(blocks := s.blocks[x.indirect := Words(AsWords(s.blocks[x.indirect])[k - NDIRECT := b])])
  }

  // Block b, taken from the bitmap, is stored in slot k of file f.
  function Claim(s: Fs, f: nat, k: nat, b: nat): (s': Fs)
    requires Wf(s) && f < |s.files| && k <= PTR && b < |s.blocks| && b < WORD
    ensures Wf(s') && |s'.files| == |s.files| && |s'.blocks| == |s.blocks|
  {
    var c := if k == PTR then Words(AsWords(s.blocks[b])) else Bytes(AsBytes(s.blocks[b]));
    SetSlot(s.(free := s.free[b := false], blocks := s.blocks[b := c], owner := s.owner[b := Slot(f, k)]), f, k, b)
  }

  // The block in slot k of file f goes back to the bitmap.
  function Release(s: Fs, f: nat, k: nat): (s': Fs)
    requires Wf(s) && f < |s.files| && k <= PTR && Ref(s, f, k) < |s.blocks|
    ensures Wf(s') && |s'.files| == |s.files| && |s'.blocks| == |s.blocks|
  {
    var b := Ref(s, f, k);
    SetSlot(s.(free := s.free[b := true], owner := s.owner[b := Nobody]), f, k, 0)
  }

  predicate Clean(b: Block)
    requires BlockOk(b)
  {
    forall i :: 0 <= i < NINDIRECT ==> AsWords(b)[i] == 0
  }

  predicate Claimable(s: Fs, f: nat, k: nat, b: nat)
    requires Wf(s)
  {
    && f < |s.files| && k <= PTR && b < |s.blocks| && b < WORD && s.free[b] && Ref(s, f, k) == 0
    && (NDIRECT <= k < PTR ==> s.files[f].indirect != 0)
  }

  // No indirect block is shared, or is block b.
  ghost predicate IndirectsOk(s: Fs, b: nat)
    requires Wf(s)
  {
    && (forall g :: 0 <= g < |s.files| && s.files[g].indirect != 0 ==>
          s.files[g].indirect < |s.blocks| && s.files[g].indirect != b && s.blocks[s.files[g].indirect].Words?)
    && (forall g, h :: 0 <= g < |s.files| && 0 <= h < |s.files| && g != h && s.files[g].indirect != 0 ==>
          s.files[g].indirect != s.files[h].indirect)
  }

  lemma InvIndirects(s: Fs, b: nat)
    requires Inv(s) && b < |s.blocks| && s.free[b]
    ensures IndirectsOk(s, b) && b != 0
  {
    forall g | 0 <= g < |s.files| && s.files[g].indirect != 0
      ensures s.files[g].indirect < |s.blocks| && s.owner[s.files[g].indirect] == Slot(g, PTR)
      ensures s.files[g].indirect != b && s.blocks[s.files[g].indirect].Words?
    {
      assert RefOk(s, g, PTR);
      assert OwnOk(s, s.files[g].indirect);
    }
    assert OwnOk(s, b);
  }

  // Which slots a claim changes.
  lemma ClaimRefs(s: Fs, f: nat, k: nat, b: nat, g: nat, l: nat)
    requires Wf(s) && IndirectsOk(s, b) && b != 0 && Claimable(s, f, k, b) && g < |s.files| && l <= PTR
    ensures var s' := Claim(s, f, k, b);
      Ref(s', g, l) ==
        if g == f && l == k then b
        else if k == PTR && g == f && NDIRECT <= l then AsWords(s.blocks[b])[l - NDIRECT]
        else Ref(s, g, l)
  {
  }

  lemma ClaimInv(s: Fs, f: nat, k: nat, b: nat)
    requires Inv(s) && Claimable(s, f, k, b)
    requires k < PTR ==> k < Ceil(s.files[f].size)
    requires k == PTR ==> Clean(s.blocks[b])
    ensures Inv(Claim(s, f, k, b))
  {
    var s' := Claim(s, f, k, b);
    assert OwnOk(s, b);
    InvIndirects(s, b);
    forall c | 0 <= c < |s.blocks| ensures OwnOk(s', c) {
      assert OwnOk(s, c);
      if s.owner[c].Slot? {
        ClaimRefs(s, f, k, b, s.owner[c].file, s.owner[c].slot);
        assert RefOk(s, f, PTR);
      }
      ClaimRefs(s, f, k, b, f, k);
    }
    forall g, l | 0 <= g < |s.files| && 0 <= l <= PTR ensures RefOk(s', g, l) {
      assert RefOk(s, g, l);
      ClaimRefs(s, f, k, b, g, l);
    }
  }

  lemma ReleaseRefs(s: Fs, f: nat, k: nat, g: nat, l: nat)
    requires Inv(s) && f < |s.files| && k <= PTR && Ref(s, f, k) != 0 && g < |s.files| && l <= PTR
    ensures Ref(s, f, k) < |s.blocks|
    ensures Ref(Release(s, f, k), g, l) ==
      if g == f && (l == k || (k == PTR && NDIRECT <= l)) then 0 else Ref(s, g, l)
  {
    assert RefOk(s, g, PTR) && RefOk(s, f, PTR) && RefOk(s, f, k);
  }

  // The slots a release would silently forget.
  predicate Emptied(s: Fs, f: nat, k: nat)
    requires Wf(s) && f < |s.files| && k <= PTR
  {
    k == PTR ==> forall l :: NDIRECT <= l < PTR ==> Ref(s, f, l) == 0
  }

  lemma ReleaseInv(s: Fs, f: nat, k: nat)
    requires Inv(s) && f < |s.files| && k <= PTR && Ref(s, f, k) != 0 && Emptied(s, f, k)
    ensures Ref(s, f, k) < |s.blocks| && Inv(Release(s, f, k))
  {
    assert RefOk(s, f, k);
    var s', b := Release(s, f, k), Ref(s, f, k);
    assert OwnOk(s, b) && RefOk(s, f, PTR);
    forall c | 0 <= c < |s.blocks| ensures OwnOk(s', c) {
      assert OwnOk(s, c);
      if s.owner[c].Slot? && c != b {
        var g, l := s.owner[c].file, s.owner[c].slot;
        ReleaseRefs(s, f, k, g, l);
      }
    }
    forall g, l | 0 <= g < |s.files| && 0 <= l <= PTR ensures RefOk(s', g, l) {
      assert RefOk(s, g, l);
      ReleaseRefs(s, f, k, g, l);
    }
  }

  // ------------------------------------------------------------------
  // alloc_block, file_block_walk, file_get_block
  // ------------------------------------------------------------------

  // The search of alloc_block from block b on.
  function FirstFree(s: Fs, b: nat): (r: Option<nat>)
    requires Wf(s)
    ensures r.Some? ==> b <= r.value < |s.blocks| && s.free[r.value] && forall c :: b <= c < r.value ==> !s.free[c]
    ensures r.None? ==> forall c :: b <= c < |s.blocks| ==> !s.free[c]
    decreases |s.blocks| - b
  {
    if b >= |s.blocks| then None else if s.free[b] then Some(b) else FirstFree(s, b + 1)
  }

  datatype Error = NotFound | NoDisk | Invalid

  // Where file_block_walk stops: the slot it found, or an error.
  datatype WalkResult = At(slot: nat) | Failed(error: Error)

  function BlockWalk(s: Fs, f: nat, filebno: nat, alloc: bool): (r: (Fs, WalkResult))
    requires Wf(s) && |s.blocks| < WORD && f < |s.files|
    ensures Wf(r.0) && |r.0.files| == |s.files| && |r.0.blocks| == |s.blocks|
    ensures r.1.At? ==> r.1.slot == filebno < NSLOTS
  {
    if filebno >= NSLOTS then (s, Failed(Invalid))
    else if filebno > Blk(s.files[f].size) then (s, Failed(NotFound))
    else if filebno < NDIRECT then (s, At(filebno))
    else if s.files[f].indirect != 0 then
      (if s.files[f].indirect < |s.blocks| then s else s.(halted := true), At(filebno))   // diskaddr panics
    else if alloc then
      var b := FirstFree(s, 2);
      if b.None? then (s, Failed(NoDisk)) else (Claim(s, f, PTR, b.value), At(filebno))
    else (s, Failed(NotFound))
  }

  datatype GetResult = Got(block: nat) | GetFailed(error: Error)

  // The slot's block, or a block taken for it.
  function GetAt(s: Fs, f: nat, filebno: nat): (r: (Fs, GetResult))
    requires Wf(s) && |s.blocks| < WORD && f < |s.files| && filebno < NSLOTS
    ensures Wf(r.0) && |r.0.files| == |s.files| && |r.0.blocks| == |s.blocks|
  {
    var b := Ref(s, f, filebno);
    if b != 0 then (if b < |s.blocks| then s else s.(halted := true), Got(b))      // diskaddr panics
    else
      var n := FirstFree(s, 2);
      if n.None? then (s, GetFailed(NoDisk)) else (Claim(s, f, filebno, n.value), Got(n.value))
  }

  // Every failure of the walk is reported as -E_NO_DISK.
  function GetBlock(s: Fs, f: nat, filebno: nat): (r: (Fs, GetResult))
    requires Wf(s) && |s.blocks| < WORD && f < |s.files|
    ensures Wf(r.0) && |r.0.files| == |s.files| && |r.0.blocks| == |s.blocks|
  {
    if filebno >= NSLOTS then (s, GetFailed(Invalid))
    else
      var w := BlockWalk(s, f, filebno, true);
      if w.1.Failed? then (w.0, GetFailed(NoDisk)) else GetAt(w.0, f, filebno)
  }

  // The walk takes a block for the indirect pointer.
  predicate TakesIndirect(s: Fs, f: nat, filebno: nat)
    requires Wf(s) && f < |s.files|
  {
    && NDIRECT <= filebno < NSLOTS && filebno <= Blk(s.files[f].size) && s.files[f].indirect == 0
    && FirstFree(s, 2).Some?
  }

  // Whether the walk finds its fresh indirect block, which it does not clear, reading as zero.
  predicate FreshIndirect(s: Fs, f: nat, filebno: nat)
    requires Wf(s) && f < |s.files|
  {
    TakesIndirect(s, f, filebno) ==> Clean(s.blocks[FirstFree(s, 2).value])
  }

  lemma WalkInv(s: Fs, f: nat, filebno: nat, alloc: bool)
    requires Inv(s) && |s.blocks| < WORD && f < |s.files|
    requires alloc ==> FreshIndirect(s, f, filebno)
    ensures var w := BlockWalk(s, f, filebno, alloc);
      && Inv(w.0)
      && (w.1.At? ==> filebno >= NDIRECT ==> w.0.files[f].indirect != 0)
      && (forall g, l :: 0 <= g < |s.files| && 0 <= l < PTR ==> Ref(w.0, g, l) == Ref(s, g, l))
      && (forall g :: 0 <= g < |s.files| ==> w.0.files[g].size == s.files[g].size)
  {
    assert RefOk(s, f, PTR);
    if alloc && TakesIndirect(s, f, filebno) {
      var b := FirstFree(s, 2).value;
      ClaimInv(s, f, PTR, b);
      InvIndirects(s, b);
      forall g, l | 0 <= g < |s.files| && 0 <= l < PTR ensures Ref(Claim(s, f, PTR, b), g, l) == Ref(s, g, l) {
        ClaimRefs(s, f, PTR, b, g, l);
      }
    }
  }

  // The one call shape that puts a block past the end: the first block after a size that is a multiple
  // of the block size.
  predicate PastEnd(s: Fs, f: nat, filebno: nat)
    requires Wf(s) && f < |s.files|
  {
    filebno == Blk(s.files[f].size) && Off(s.files[f].size) == 0
  }

  lemma CeilSlot(size: nat, filebno: nat)
    ensures filebno <= Blk(size) && !(filebno == Blk(size) && Off(size) == 0) <==> filebno < Ceil(size)
  {
    BlkOff(size);
    BlkOff(size + BLKSIZE - 1);
  }

  // file_get_block keeps ownership, and afterwards the slot holds the block it answers.
  lemma GetBlockInv(s: Fs, f: nat, filebno: nat)
    requires Inv(s) && |s.blocks| < WORD && f < |s.files|
    requires FreshIndirect(s, f, filebno) && !PastEnd(s, f, filebno)
    ensures var g := GetBlock(s, f, filebno);
      && Inv(g.0)
      && (g.1.Got? ==>
            filebno < NSLOTS && filebno < Ceil(s.files[f].size)
            && g.1.block != 0 && g.1.block < |s.blocks| && Ref(g.0, f, filebno) == g.1.block)
      && (forall h, l :: 0 <= h < |s.files| && 0 <= l < PTR && !(h == f && l == filebno) ==>
            Ref(g.0, h, l) == Ref(s, h, l))
      && (forall h :: 0 <= h < |s.files| ==> g.0.files[h].size == s.files[h].size)
      && (filebno < NSLOTS && Ref(s, f, filebno) != 0 ==> g.1 == Got(Ref(s, f, filebno)) && g.0 == s)
  {
    if filebno < NSLOTS {
      WalkInv(s, f, filebno, true);
      CeilSlot(s.files[f].size, filebno);
      var w := BlockWalk(s, f, filebno, true);
      assert RefOk(w.0, f, filebno);
      assert RefOk(s, f, filebno);
      if w.1.At? && Ref(w.0, f, filebno) == 0 && FirstFree(w.0, 2).Some? {
        var n := FirstFree(w.0, 2).value;
        ClaimInv(w.0, f, filebno, n);
        InvIndirects(w.0, n);
        forall h, l | 0 <= h < |s.files| && 0 <= l < PTR
          ensures Ref(Claim(w.0, f, filebno, n), h, l) == if h == f && l == filebno then n else Ref(s, h, l)
        {
          ClaimRefs(w.0, f, filebno, n, h, l);
        }
      }
    }
  }

  // ------------------------------------------------------------------
  // Exactly when file_get_block breaks ownership
  // ------------------------------------------------------------------

  // There are blocks enough for the call to store one in slot filebno.
  predicate CanTake(s: Fs, f: nat, filebno: nat)
    requires Wf(s) && f < |s.files|
  {
    var b := FirstFree(s, 2);
    b.Some? && (filebno >= NDIRECT && s.files[f].indirect == 0 ==> FirstFree(s, b.value + 1).Some?)
  }

  // Words of the indirect block b of file f.
  function WordAt(t: Fs, b: nat, i: nat): nat
    requires Wf(t) && b < |t.blocks| && i < NINDIRECT
  {
    AsWords(t.blocks[b])[i]
  }

  // Some slot of f past the direct ones names c.
  ghost predicate NamedBy(t: Fs, b: nat, c: nat)
    requires Wf(t) && b < |t.blocks|
  {
    exists i: nat :: i < NINDIRECT && WordAt(t, b, i) == c
  }

  // c was taken since, for a slot whose word was zero.
  ghost predicate TakenSince(s: Fs, t: Fs, b: nat, c: nat)
    requires Wf(s) && Wf(t) && b < |s.blocks| && b < |t.blocks|
  {
    exists i: nat :: i < NINDIRECT && WordAt(s, b, i) == 0 && WordAt(t, b, i) == c
  }

  // Another file's indirect block still holds its words, or a slot of f names it.
  ghost predicate OtherKept(s: Fs, t: Fs, b: nat, g: nat)
    requires Wf(s) && Wf(t) && |t.blocks| == |s.blocks| && b < |s.blocks| && g < |s.files|
    requires s.files[g].indirect < |s.blocks|
  {
    AsWords(t.blocks[s.files[g].indirect]) == AsWords(s.blocks[s.files[g].indirect]) || NamedBy(t, b, s.files[g].indirect)
  }

  // How far a state t may be from s after free block b became f's indirect block and further calls on f
  // went through it.
  ghost predicate Drift(s: Fs, t: Fs, f: nat, b: nat)
    requires Inv(s) && f < |s.files| && b < |s.blocks|
  {
    && Wf(t) && |t.blocks| == |s.blocks| && t.files == s.files[f := s.files[f].(indirect := b)] && !t.free[b]
    && (forall c: nat :: c < |s.blocks| && t.free[c] ==> s.free[c])
    && (forall c: nat :: c < |s.blocks| && s.free[c] && !t.free[c] && c != b ==> TakenSince(s, t, b, c))
    && (forall i: nat :: i < NINDIRECT && WordAt(s, b, i) != 0 ==> WordAt(t, b, i) == WordAt(s, b, i))
    && (forall i: nat :: i < NINDIRECT && WordAt(t, b, i) == b ==> WordAt(s, b, i) == b)
    && (forall g: nat :: g < |s.files| && g != f && s.files[g].indirect != 0 ==>
          s.files[g].indirect < |s.blocks| && OtherKept(s, t, b, g))
  }

  // The hypotheses the lemmas on drifting share: b was free, f had no indirect block.
  ghost predicate Stray(s: Fs, f: nat, b: nat) {
    Inv(s) && |s.blocks| < WORD && f < |s.files| && b < |s.blocks| && s.free[b] && s.files[f].indirect == 0
  }

  lemma DriftStarts(s: Fs, f: nat, b: nat)
    requires Stray(s, f, b)
    ensures Drift(s, Claim(s, f, PTR, b), f, b)
  {
    InvIndirects(s, b);
  }

  lemma DriftRefs(s: Fs, t: Fs, f: nat, b: nat, g: nat, l: nat)
    requires Stray(s, f, b) && Drift(s, t, f, b) && g < |s.files| && l <= PTR
    ensures g == f && NDIRECT <= l < PTR ==> Ref(t, f, l) == WordAt(t, b, l - NDIRECT)
    ensures g == f && l == PTR ==> Ref(t, f, l) == b
    ensures !(g == f && NDIRECT <= l) ==> Ref(t, g, l) == Ref(s, g, l) || NamedBy(t, b, s.files[g].indirect)
  {
    InvIndirects(s, b);
    assert g != f && s.files[g].indirect != 0 ==> s.files[g].indirect < |s.blocks| && OtherKept(s, t, b, g);
  }

  // A word of b that was not zero names no block this slot could own, however far the state drifts.
  lemma StaleWord(s: Fs, t: Fs, f: nat, b: nat, i: nat)
    requires Stray(s, f, b) && Drift(s, t, f, b) && i < NINDIRECT && WordAt(s, b, i) != 0
    ensures !Sound(t)
  {
    var v, j := WordAt(s, b, i), i + NDIRECT;
    DriftRefs(s, t, f, b, f, j);
    DriftRefs(s, t, f, b, f, PTR);
    if v >= |s.blocks| || Reserved(t, v) {
      assert !InRange(t, f, j);
    } else if v == b {
      assert !Apart(t, f, j, f, PTR);
    } else if t.free[v] {
      assert Named(t, v);
    } else if s.free[v] {
      var k: nat :| k < NINDIRECT && WordAt(s, b, k) == 0 && WordAt(t, b, k) == v;
      DriftRefs(s, t, f, b, f, k + NDIRECT);
      assert !Apart(t, f, j, f, k + NDIRECT);
    } else {
      StaleOwned(s, t, f, b, j);
    }
  }

  lemma StaleOwned(s: Fs, t: Fs, f: nat, b: nat, j: nat)
    requires Stray(s, f, b) && Drift(s, t, f, b) && NDIRECT <= j < PTR
    requires Ref(t, f, j) != 0 && Ref(t, f, j) < |s.blocks| && !s.free[Ref(t, f, j)] && !Reserved(s, Ref(t, f, j))
    ensures !Sound(t)
  {
    var v := Ref(t, f, j);
    InvSound(s);
    assert Named(s, v);
    var g, l :| 0 <= g < |s.files| && 0 <= l <= PTR && Ref(s, g, l) == v;
    DriftRefs(s, t, f, b, g, l);
    if Ref(t, g, l) == v {
      assert !Apart(t, f, j, g, l);
    } else {
      assert g != f;
      var c := s.files[g].indirect;
      var i: nat :| i < NINDIRECT && WordAt(t, b, i) == c;
      DriftRefs(s, t, f, b, f, i + NDIRECT);
      assert Ref(t, g, PTR) == c;
      assert !Apart(t, f, i + NDIRECT, g, PTR);
    }
  }

  // Taking a free block for an empty slot of f past the direct ones.
  lemma DriftClaim(s: Fs, t: Fs, f: nat, b: nat, k: nat, n: nat)
    requires Stray(s, f, b) && Drift(s, t, f, b) && NDIRECT <= k < PTR
    requires n < |s.blocks| && t.free[n] && WordAt(t, b, k - NDIRECT) == 0
    ensures Drift(s, Claim(t, f, k, n), f, b)
    ensures forall i: nat :: i < NINDIRECT ==> WordAt(Claim(t, f, k, n), b, i) == if i == k - NDIRECT then n else WordAt(t, b, i)
  {
    var t' := Claim(t, f, k, n);
    InvIndirects(s, b);
    InvIndirects(s, n);
    assert t'.free == t.free[n := false];
    assert forall i: nat :: i < NINDIRECT ==> WordAt(t', b, i) == if i == k - NDIRECT then n else WordAt(t, b, i);
    forall c: nat | c < |s.blocks| && s.free[c] && !t'.free[c] && c != b ensures TakenSince(s, t', b, c) {
      assert OwnOk(s, c);
      if c == n {
        assert WordAt(t', b, k - NDIRECT) == n;
      } else {
        var i: nat :| i < NINDIRECT && WordAt(s, b, i) == 0 && WordAt(t, b, i) == c;
        assert WordAt(t', b, i) == c;
      }
    }
    forall g: nat | g < |s.files| && g != f && s.files[g].indirect != 0 ensures OtherKept(s, t', b, g) {
      DriftOther(s, t, t', f, b, g);
    }
  }

  lemma DriftOther(s: Fs, t: Fs, t': Fs, f: nat, b: nat, g: nat)
    requires Stray(s, f, b) && Drift(s, t, f, b) && g < |s.files| && g != f && s.files[g].indirect != 0
    requires Wf(t') && |t'.blocks| == |t.blocks| && s.files[g].indirect < |s.blocks|
    requires AsWords(t'.blocks[s.files[g].indirect]) == AsWords(t.blocks[s.files[g].indirect])
    requires forall i: nat :: i < NINDIRECT && WordAt(t, b, i) != 0 ==> WordAt(t', b, i) == WordAt(t, b, i)
    ensures OtherKept(s, t', b, g)
  {
    assert OtherKept(s, t, b, g);
    if NamedBy(t, b, s.files[g].indirect) {
      var i: nat :| i < NINDIRECT && WordAt(t, b, i) == s.files[g].indirect;
      assert WordAt(t', b, i) == s.files[g].indirect;
    }
  }

  lemma DriftGetAt(s: Fs, t: Fs, f: nat, b: nat, k: nat)
    requires Stray(s, f, b) && Drift(s, t, f, b) && NDIRECT <= k < NSLOTS
    ensures var g := GetAt(t, f, k);
      && Drift(s, g.0, f, b)
      && (g.1.Got? ==>
            WordAt(g.0, b, k - NDIRECT) == g.1.block && (g.1.block == b ==> WordAt(s, b, k - NDIRECT) == b))
  {
    DriftRefs(s, t, f, b, f, k);
    if Ref(t, f, k) == 0 && FirstFree(t, 2).Some? {
      DriftClaim(s, t, f, b, k, FirstFree(t, 2).value);
    } else {
      DriftHalts(s, t, f, b);
    }
  }

  lemma DriftHalts(s: Fs, t: Fs, f: nat, b: nat)
    requires Stray(s, f, b) && Drift(s, t, f, b)
    ensures Drift(s, t.(halted := true), f, b)
  {
    var t' := t.(halted := true);
    forall c: nat | c < |s.blocks| && s.free[c] && !t'.free[c] && c != b ensures TakenSince(s, t', b, c) {
      var i: nat :| i < NINDIRECT && WordAt(s, b, i) == 0 && WordAt(t, b, i) == c;
      assert WordAt(t', b, i) == c;
    }
    forall g: nat | g < |s.files| && g != f && s.files[g].indirect != 0 ensures OtherKept(s, t', b, g) {
      DriftOther(s, t, t', f, b, g);
    }
  }

  // With an indirect block in range the walk changes nothing.
  lemma WalkThrough(t: Fs, f: nat, k: nat)
    requires Wf(t) && |t.blocks| < WORD && f < |t.files| && NDIRECT <= k && 0 < t.files[f].indirect < |t.blocks|
    ensures BlockWalk(t, f, k, true).0 == t
  {
  }

  // file_get_block on such a slot keeps drifting, and answers the slot's block.
  lemma DriftGet(s: Fs, t: Fs, f: nat, b: nat, k: nat)
    requires Stray(s, f, b) && Drift(s, t, f, b) && NDIRECT <= k
    ensures var g := GetBlock(t, f, k);
      && Drift(s, g.0, f, b)
      && (g.1.Got? ==>
            k < NSLOTS && WordAt(g.0, b, k - NDIRECT) == g.1.block
            && (g.1.block == b ==> WordAt(s, b, k - NDIRECT) == b))
  {
    InvIndirects(s, b);
    WalkThrough(t, f, k);
    hide BlockWalk, GetAt;
    if k < NSLOTS {
      DriftGetAt(s, t, f, b, k);
    }
  }

  // After the walk took its indirect block the call goes on as if the block had been there.
  lemma TakeThenGet(s: Fs, f: nat, filebno: nat)
    requires Wf(s) && |s.blocks| < WORD && f < |s.files| && TakesIndirect(s, f, filebno)
    ensures GetBlock(s, f, filebno) == GetBlock(Claim(s, f, PTR, FirstFree(s, 2).value), f, filebno)
  {
    var w := Claim(s, f, PTR, FirstFree(s, 2).value);
    assert BlockWalk(s, f, filebno, true) == (w, At(filebno));
    assert w.files[f].size == s.files[f].size && w.files[f].indirect == FirstFree(s, 2).value;
    hide Claim, GetAt;
    assert BlockWalk(w, f, filebno, true) == (w, At(filebno));
  }

  lemma StaleBreaks(s: Fs, f: nat, filebno: nat)
    requires Inv(s) && |s.blocks| < WORD && f < |s.files| && !FreshIndirect(s, f, filebno)
    ensures !Sound(GetBlock(s, f, filebno).0)
  {
    var b := FirstFree(s, 2).value;
    DriftStarts(s, f, b);
    TakeThenGet(s, f, filebno);
    DriftGet(s, Claim(s, f, PTR, b), f, b, filebno);
    var i :| 0 <= i < NINDIRECT && AsWords(s.blocks[b])[i] != 0;
    StaleWord(s, GetBlock(s, f, filebno).0, f, b, i);
  }

  lemma SecondFree(s: Fs, f: nat, b: nat)
    requires Wf(s) && f < |s.files| && FirstFree(s, 2) == Some(b) && b < WORD
    ensures FirstFree(Claim(s, f, PTR, b), 2).Some? <==> FirstFree(s, b + 1).Some?
  {
    var w := Claim(s, f, PTR, b);
    assert w.free == s.free[b := false];
    if FirstFree(s, b + 1).Some? {
      assert w.free[FirstFree(s, b + 1).value];
    }
    if FirstFree(w, 2).Some? {
      assert s.free[FirstFree(w, 2).value];
    }
  }

  lemma PastEndBreaks(s: Fs, f: nat, filebno: nat)
    requires Inv(s) && |s.blocks| < WORD && f < |s.files| && filebno < NSLOTS
    requires FreshIndirect(s, f, filebno) && PastEnd(s, f, filebno)
    ensures Sound(GetBlock(s, f, filebno).0) <==> !CanTake(s, f, filebno)
  {
    var w := BlockWalk(s, f, filebno, true);
    WalkInv(s, f, filebno, true);
    CeilSlot(s.files[f].size, filebno);
    assert RefOk(w.0, f, filebno) && RefOk(s, f, PTR);
    if TakesIndirect(s, f, filebno) {
      SecondFree(s, f, FirstFree(s, 2).value);
    }
    if CanTake(s, f, filebno) {
      var n := FirstFree(w.0, 2).value;
      InvIndirects(w.0, n);
      ClaimRefs(w.0, f, filebno, n, f, filebno);
      assert !InRange(Claim(w.0, f, filebno, n), f, filebno);
    } else {
      InvSound(w.0);
    }
  }

  // Ownership survives a call exactly when the fresh indirect block, if one is taken, reads as zero and
  // the call does not put a block at the end of a file that fills its last block.
  lemma GetBlockExact(s: Fs, f: nat, filebno: nat)
    requires Inv(s) && |s.blocks| < WORD && f < |s.files|
    ensures Sound(GetBlock(s, f, filebno).0) <==>
      (filebno < NSLOTS ==>
         FreshIndirect(s, f, filebno) && !(PastEnd(s, f, filebno) && CanTake(s, f, filebno)))
  {
    if filebno >= NSLOTS {
      InvSound(s);
    } else if !FreshIndirect(s, f, filebno) {
      StaleBreaks(s, f, filebno);
    } else if PastEnd(s, f, filebno) {
      PastEndBreaks(s, f, filebno);
    } else {
      GetBlockInv(s, f, filebno);
      InvSound(GetBlock(s, f, filebno).0);
    }
  }

  // ------------------------------------------------------------------
  // Start
  // ------------------------------------------------------------------

  function ReservedBlock(n: nat, b: nat): bool {
    b < 2 || (b - 2) * BLKBITSIZE < n
  }

  // A formatted disk of n blocks and m empty files: everything but the reserved blocks is free.
  function Format(n: nat, m: nat, contents: Block): (s: Fs)
    requires BlockOk(contents)
    ensures Wf(s)
  {
    Fs(seq(n, b requires 0 <= b < n => !ReservedBlock(n, b)), seq(n, b => contents),
       seq(m, f => File(0, seq(NDIRECT, i => 0), 0)), false,
       seq(n, b requires 0 <= b < n => if ReservedBlock(n, b) then System else Nobody))
  }

  lemma FormatInv(n: nat, m: nat, contents: Block)
    requires BlockOk(contents)
    ensures Inv(Format(n, m, contents)) && Sound(Format(n, m, contents))
  {
    InvSound(Format(n, m, contents));
  }
}
