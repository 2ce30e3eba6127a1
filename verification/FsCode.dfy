// fs/fs.c as code: bitmap, block cache and file records updated in place, with the loops of the source.
module FsCode {
  import opened Wrappers
  import opened FsBlocks
  import opened FsFiles

  class FileSystem {
    const bitmap: array<bool>          // bit b set: block b is free
    const blocks: array<Block>         // the disk as the block cache shows it
    const files: array<File>           // the File records in use
    var halted: bool
    ghost var owner: seq<Owner>

    ghost function S(): Fs
      reads this, bitmap, blocks, files
    {
      Fs(bitmap[..], blocks[..], files[..], halted, owner)
    }

    ghost predicate Valid()
      reads this, bitmap, blocks, files
    {
      Wf(S()) && blocks.Length < WORD
    }

    method BlockIsFree(blockno: nat) returns (r: bool)
      requires Valid()
      ensures r <==> blockno < |S().blocks| && S().free[blockno]
    {
      if blockno >= blocks.Length {
        return false;
      }
      return bitmap[blockno];
    }

    method FreeBlock(blockno: nat)
      requires Valid() && blockno < blocks.Length
      modifies this, bitmap
      ensures Valid()
      ensures S() == if blockno == 0 then old(S()).(halted := true)
                     else old(S()).(free := old(S()).free[blockno := true], owner := old(S()).owner[blockno := Nobody])
    {
      if blockno == 0 {
        halted := true;
        return;
      }
      bitmap[blockno] := true;
      owner := owner[blockno := Nobody];
    }

    // The caller says, for the bookkeeping, which slot the block is for.
    method AllocBlock(ghost slot: Owner) returns (r: Option<nat>)
      requires Valid()
      modifies this, bitmap
      ensures Valid() && r == FirstFree(old(S()), 2)
      ensures S() == if r.None? then old(S())
                     else old(S()).(free := old(S()).free[r.value := false], owner := old(S()).owner[r.value := slot])
    {
      var blockno := 2;
      while blockno < blocks.Length
        invariant 2 <= blockno
        invariant S() == old(S())
        invariant FirstFree(old(S()), 2) == FirstFree(old(S()), blockno)
      {
        var free := BlockIsFree(blockno);
        if free {
          bitmap[blockno] := false;
          owner := owner[blockno := slot];
          return Some(blockno);
        }
        blockno := blockno + 1;
      }
      return None;
    }

    // *ppdiskbno
    method Slot(f: nat, k: nat) returns (b: nat)
      requires Valid() && f < files.Length && k < NSLOTS
      ensures b == Ref(S(), f, k)
    {
      if k < NDIRECT {
        return files[f].direct[k];
      }
      var i := files[f].indirect;
      if i == 0 || i >= blocks.Length {
        return 0;
      }
      return AsWords(blocks[i])[k - NDIRECT];
    }

    method StoreSlot(f: nat, k: nat, b: nat)
      requires Valid() && f < files.Length && k < NSLOTS && b < WORD
      modifies blocks, files
      ensures Valid() && S() == SetSlot(old(S()), f, k, b)
    {
      if k < NDIRECT {
        files[f] := files[f].(direct := files[f].direct[k := b]);
      } else {
        var i := files[f].indirect;
        if i != 0 && i < blocks.Length {
          blocks[i] := Words(AsWords(blocks[i])[k - NDIRECT := b]);
        }
      }
    }

    method FileBlockWalk(f: nat, filebno: nat, alloc: bool) returns (r: WalkResult)
      requires Valid() && f < files.Length
      modifies this, bitmap, blocks, files
      ensures Valid() && (S(), r) == BlockWalk(old(S()), f, filebno, alloc)
    {
      if filebno >= NSLOTS {
        return Failed(Invalid);
      }
      if filebno > files[f].size / BLKSIZE {
        BlkOff(files[f].size);
        return Failed(NotFound);
      }
      BlkOff(files[f].size);
      if filebno < NDIRECT {
        return At(filebno);
      }
      if files[f].indirect != 0 {
        if files[f].indirect >= blocks.Length {
          halted := true;
        }
        return At(filebno);
      }
      if !alloc {
        return Failed(NotFound);
      }
      var b := AllocBlock(Owner.Slot(f, PTR));
      if b.None? {
        return Failed(NoDisk);
      }
      blocks[b.value] := Words(AsWords(blocks[b.value]));
      files[f] := files[f].(indirect := b.value);
      return At(filebno);
    }

    method FileGetBlock(f: nat, filebno: nat) returns (r: GetResult)
      requires Valid() && f < files.Length
      modifies this, bitmap, blocks, files
      ensures Valid() && (S(), r) == GetBlock(old(S()), f, filebno)
    {
      if filebno >= NSLOTS {
        return GetFailed(Invalid);
      }
      var w := FileBlockWalk(f, filebno, true);
      if w.Failed? {
        return GetFailed(NoDisk);
      }
      var b := Slot(f, filebno);
      if b != 0 {
        if b >= blocks.Length {
          halted := true;
        }
        return Got(b);
      }
      var n := AllocBlock(Owner.Slot(f, filebno));
      if n.None? {
        return GetFailed(NoDisk);
      }
      blocks[n.value] := Bytes(AsBytes(blocks[n.value]));
      StoreSlot(f, filebno, n.value);
      return Got(n.value);
    }

    // One iteration of file_read: the bytes up to the end of the block or of the request.
    method ReadChunk(f: nat, pos: nat, end: nat) returns (r: ReadResult)
      requires Valid() && f < files.Length && pos < end
      modifies this, bitmap, blocks, files
      ensures Valid() && (S(), r) == ReadStep(old(S()), f, pos, end)
    {
      hide GetBlock;
      BlkOff(pos);
      var g := FileGetBlock(f, pos / BLKSIZE);
      if g.GetFailed? {
        return ReadFailed(g.error);
      }
      if g.block >= blocks.Length {
        return ReadFailed(Invalid);
      }
      var bn := Min(BLKSIZE - pos % BLKSIZE, end - pos);
      return Read(AsBytes(blocks[g.block])[pos % BLKSIZE..pos % BLKSIZE + bn]);
    }

    // What that leaves of the loop, given the bytes copied so far.
    method ReadOnce(f: nat, pos: nat, end: nat, buf: seq<bv8>) returns (r: ReadResult)
      requires Valid() && f < files.Length && pos < end
      modifies this, bitmap, blocks, files
      ensures Valid()
      ensures r.ReadFailed? ==> ReadFrom(old(S()), f, pos, end, buf) == (S(), r)
      ensures r.Read? ==> ReadFrom(old(S()), f, pos, end, buf) == ReadFrom(S(), f, pos + Chunk(pos, end), end, r.bytes)
    {
      var c := ReadChunk(f, pos, end);
      r := if c.ReadFailed? then c else Read(buf + c.bytes);
      ReadFromStep(old(S()), S(), f, pos, end, buf, c);
    }

    // The loop of file_read.
    method ReadAll(f: nat, offset: nat, end: nat, ghost goal: (Fs, ReadResult)) returns (r: ReadResult)
      requires Valid() && f < files.Length && offset <= end && goal == ReadFrom(S(), f, offset, end, [])
      modifies this, bitmap, blocks, files
      ensures Valid() && (S(), r) == goal
    {
      hide GetBlock, ReadStep;
      var pos := offset;
      var buf: seq<bv8> := [];
      while pos < end
        invariant Valid() && goal == ReadFrom(S(), f, pos, end, buf)
      {
        r := ReadOnce(f, pos, end, buf);
        if r.ReadFailed? {
          return;
        }
        ghost var s := S();
        assert goal == ReadFrom(s, f, pos + Chunk(pos, end), end, r.bytes);
        buf := r.bytes;
        pos := pos + Chunk(pos, end);
        assert S() == s;
      }
      return Read(buf);
    }

    method FileReadAt(f: nat, count: nat, offset: nat) returns (r: ReadResult)
      requires Valid() && f < files.Length
      modifies this, bitmap, blocks, files
      ensures Valid() && (S(), r) == FileRead(old(S()), f, count, offset)
    {
      hide GetBlock, ReadStep, ReadLoop, ReadFrom;
      if offset >= files[f].size {
        return Read([]);
      }
      var end := offset + Min(count, files[f].size - offset);
      ReadFromIs(S(), f, offset, end, []);
      r := ReadAll(f, offset, end, ReadLoop(S(), f, offset, end));
    }

    // One iteration of file_write.
    method WriteChunk(f: nat, buf: seq<bv8>, pos: nat, end: nat) returns (r: WriteResult)
      requires Valid() && f < files.Length && pos < end && |buf| == end - pos
      modifies this, bitmap, blocks, files
      ensures Valid()
      ensures r.WriteFailed? ==> WriteLoop(old(S()), f, buf, pos, end) == (S(), r)
      ensures r.Wrote? ==>
        WriteLoop(old(S()), f, buf, pos, end)
        == WriteLoop(S(), f, buf[Chunk(pos, end)..], pos + Chunk(pos, end), end)
    {
      BlkOff(pos);
      ghost var was := S();
      var bn := Min(BLKSIZE - pos % BLKSIZE, end - pos);
      var g := FileGetBlock(f, pos / BLKSIZE);
      if g.GetFailed? {
        r := WriteFailed(g.error);
      } else if g.block >= blocks.Length {
        r := WriteFailed(Invalid);
      } else {
        blocks[g.block] := Bytes(Splice(AsBytes(blocks[g.block]), pos % BLKSIZE, buf[..bn]));
        r := Wrote;
      }
      WriteLoopStep(was, S(), f, buf, pos, end, r);
    }

    // The loop of file_write.
    method WriteAll(f: nat, buf: seq<bv8>, offset: nat, end: nat, ghost goal: (Fs, WriteResult)) returns (r: WriteResult)
      requires Valid() && f < files.Length && |buf| == end - offset && goal == WriteLoop(S(), f, buf, offset, end)
      modifies this, bitmap, blocks, files
      ensures Valid() && (S(), r) == goal
    {
      hide GetBlock, WriteStep, Poke;
      var pos, rest := offset, buf;
      while pos < end
        invariant Valid() && |rest| == end - pos && goal == WriteLoop(S(), f, rest, pos, end)
      {
        r := WriteChunk(f, rest, pos, end);
        if r.WriteFailed? {
          return;
        }
        ghost var s := S();
        assert goal == WriteLoop(s, f, rest[Chunk(pos, end)..], pos + Chunk(pos, end), end);
        rest := rest[Chunk(pos, end)..];
        pos := pos + Chunk(pos, end);
        assert S() == s;
      }
      return Wrote;
    }

    // "Extend file if necessary".
    method Extend(f: nat, end: nat)
      requires Valid() && f < files.Length
      modifies this, bitmap, blocks, files
      ensures Valid() && S() == Extended(old(S()), f, end)
    {
      if end > files[f].size {
        FileSetSize(f, end);
      }
    }

    method FileWriteAt(f: nat, buf: seq<bv8>, offset: nat) returns (r: WriteResult)
      requires Valid() && f < files.Length
      modifies this, bitmap, blocks, files
      ensures Valid() && (S(), r) == FileWrite(old(S()), f, buf, offset)
    {
      hide GetBlock, WriteStep, SetSize;
      ghost var goal := FileWrite(S(), f, buf, offset);
      var end := offset + |buf|;
      Extend(f, end);
      ghost var s := S();
      assert goal == WriteLoop(s, f, buf, offset, end);
      r := WriteAll(f, buf, offset, end, goal);
    }

    method FileFreeBlock(f: nat, filebno: nat)
      requires Valid() && f < files.Length
      modifies this, bitmap, blocks, files
      ensures Valid() && S() == FreeSlot(old(S()), f, filebno)
    {
      var w := FileBlockWalk(f, filebno, false);
      if w.Failed? {
        return;
      }
      var b := Slot(f, filebno);
      if b != 0 && b < blocks.Length {
        FreeBlock(b);
        StoreSlot(f, filebno, 0);
      }
    }

    method FileTruncateBlocks(f: nat, newSize: nat)
      requires Valid() && f < files.Length
      modifies this, bitmap, blocks, files
      ensures Valid() && S() == TruncateBlocks(old(S()), f, newSize)
    {
      var oldBlocks := (files[f].size + BLKSIZE - 1) / BLKSIZE;
      var newBlocks := (newSize + BLKSIZE - 1) / BLKSIZE;
      BlkOff(files[f].size + BLKSIZE - 1);
      BlkOff(newSize + BLKSIZE - 1);
      var bno := newBlocks;
      while bno < oldBlocks
        invariant Valid() && files.Length == |old(S()).files| && newBlocks <= bno
        invariant TruncateLoop(old(S()), f, newBlocks, oldBlocks) == TruncateLoop(S(), f, bno, oldBlocks)
      {
        FileFreeBlock(f, bno);
        bno := bno + 1;
      }
      var i := files[f].indirect;
      if newBlocks <= NDIRECT && i != 0 && i < blocks.Length {
        FreeBlock(i);
        files[f] := files[f].(indirect := 0);
      }
    }

    method FileSetSize(f: nat, newSize: nat)
      requires Valid() && f < files.Length
      modifies this, bitmap, blocks, files
      ensures Valid() && S() == SetSize(old(S()), f, newSize)
    {
      if files[f].size > newSize {
        FileTruncateBlocks(f, newSize);
      }
      files[f] := files[f].(size := newSize);
    }
  }

  // file_read's loop as it runs, with the bytes copied so far.
  function ReadFrom(s: Fs, f: nat, pos: nat, end: nat, buf: seq<bv8>): (r: (Fs, ReadResult))
    requires Wf(s) && |s.blocks| < WORD && f < |s.files|
    decreases end - pos
  {
    if pos >= end then (s, Read(buf))
    else
      var g := ReadStep(s, f, pos, end);
      if g.1.ReadFailed? then g else ReadFrom(g.0, f, pos + Chunk(pos, end), end, buf + g.1.bytes)
  }

  lemma {:induction false} ReadFromIs(s: Fs, f: nat, pos: nat, end: nat, buf: seq<bv8>)
    requires Wf(s) && |s.blocks| < WORD && f < |s.files|
    ensures var r := ReadLoop(s, f, pos, end);
      ReadFrom(s, f, pos, end, buf) == (r.0, if r.1.ReadFailed? then r.1 else Read(buf + r.1.bytes))
    ensures buf == [] ==> ReadFrom(s, f, pos, end, buf) == ReadLoop(s, f, pos, end)
    decreases end - pos
  {
    hide GetBlock, ReadStep;
    if pos < end {
      var g := ReadStep(s, f, pos, end);
      if g.1.Read? {
        ReadFromIs(g.0, f, pos + Chunk(pos, end), end, buf + g.1.bytes);
        var r := ReadLoop(g.0, f, pos + Chunk(pos, end), end);
        if r.1.Read? {
          assert (buf + g.1.bytes) + r.1.bytes == buf + (g.1.bytes + r.1.bytes);
        }
      }
    } else {
      assert buf + [] == buf;
    }
    var r := ReadLoop(s, f, pos, end);
    if r.1.Read? {
      assert [] + r.1.bytes == r.1.bytes;
    }
  }

  // The two loops, unfolded once.
  lemma ReadFromStep(s: Fs, s': Fs, f: nat, pos: nat, end: nat, buf: seq<bv8>, c: ReadResult)
    requires Wf(s) && |s.blocks| < WORD && f < |s.files| && pos < end && (s', c) == ReadStep(s, f, pos, end)
    ensures c.ReadFailed? ==> ReadFrom(s, f, pos, end, buf) == (s', c)
    ensures c.Read? ==> ReadFrom(s, f, pos, end, buf) == ReadFrom(s', f, pos + Chunk(pos, end), end, buf + c.bytes)
  {
  }

  lemma WriteLoopStep(s: Fs, s': Fs, f: nat, buf: seq<bv8>, pos: nat, end: nat, w: WriteResult)
    requires Wf(s) && |s.blocks| < WORD && f < |s.files| && pos < end && |buf| == end - pos
    requires (s', w) == WriteStep(s, f, buf[..Chunk(pos, end)], pos)
    ensures w.WriteFailed? ==> WriteLoop(s, f, buf, pos, end) == (s', w)
    ensures w.Wrote? ==>
      WriteLoop(s, f, buf, pos, end) == WriteLoop(s', f, buf[Chunk(pos, end)..], pos + Chunk(pos, end), end)
  {
  }
}
