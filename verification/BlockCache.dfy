// The write-back block cache of fs/bc.c and fs_sync of fs/fs.c: the program sees a flat array of blocks.
module BlockCache {
  type Data = seq<bv8>

  // A page of the disk map: absent, or mapped with PTE_D set or clear.
  datatype Page = Absent | Mapped(data: Data, dirty: bool)

  // free is the bitmap the fault handler consults; halted records a panic.
  datatype Cache = Cache(mem: seq<Page>, disk: seq<Data>, free: seq<bool>, halted: bool)

  predicate Wf(c: Cache) {
    |c.mem| == |c.disk| == |c.free|
  }

  // What a load from block b sees, faulting the block in if need be.
  function View(c: Cache, b: nat): Data
    requires Wf(c) && b < |c.mem|
  {
    if c.mem[b].Mapped? then c.mem[b].data else c.disk[b]
  }

  ghost predicate Inv(c: Cache) {
    Wf(c) && forall b :: 0 <= b < |c.mem| && c.mem[b].Mapped? && !c.mem[b].dirty ==> c.mem[b].data == c.disk[b]
  }

  // ------------------------------------------------------------------
  // bc_pgfault, flush_block, fs_sync
  // ------------------------------------------------------------------

  // sys_page_alloc maps a page with whatever the frame held; ide_read fills it and so dirties it;
  // sys_page_map clears PTE_D.  Only then is the block checked against the bitmap.
  function AfterAlloc(c: Cache, b: nat, stale: Data): (c': Cache)
    requires Wf(c) && b < |c.mem|
    ensures Wf(c') && |c'.mem| == |c.mem|
  {
    c.(mem := c.mem[b := Mapped(stale, false)])
  }

  function AfterRead(c: Cache, b: nat): (c': Cache)
    requires Wf(c) && b < |c.mem|
    ensures Wf(c') && |c'.mem| == |c.mem|
  {
    c.(mem := c.mem[b := Mapped(c.disk[b], true)])
  }

  function AfterMap(c: Cache, b: nat): (c': Cache)
    requires Wf(c) && b < |c.mem|
    ensures Wf(c') && |c'.mem| == |c.mem|
  {
    if c.mem[b].Mapped? then c.(mem := c.mem[b := c.mem[b].(dirty := false)]) else c
  }

  function Fault(c: Cache, b: nat, stale: Data): (c': Cache)
    requires Wf(c)
    ensures Wf(c') && |c'.mem| == |c.mem|
  {
    if b >= |c.mem| then c.(halted := true)
    else
      var c1 := AfterMap(AfterRead(AfterAlloc(c, b, stale), b), b);
      if c1.free[b] then c1.(halted := true) else c1
  }

  function Flush(c: Cache, b: nat): (c': Cache)
    requires Wf(c) && b < |c.mem|
    ensures Wf(c') && |c'.mem| == |c.mem|
  {
    if c.mem[b].Absent? || !c.mem[b].dirty then c
    else AfterMap(c.(disk := c.disk[b := c.mem[b].data]), b)
  }

  function SyncFrom(c: Cache, b: nat): (c': Cache)
    requires Wf(c)
    ensures Wf(c') && |c'.mem| == |c.mem|
    decreases |c.mem| - b
  {
    if b >= |c.mem| then c else SyncFrom(Flush(c, b), b + 1)
  }

  // The loop of fs_sync starts at block 1.
  function Sync(c: Cache): (c': Cache)
    requires Wf(c)
    ensures Wf(c') && |c'.mem| == |c.mem|
  {
    SyncFrom(c, 1)
  }

  // A load and a store of the file server; stale is what a freshly allocated frame would hold.
  function Load(c: Cache, b: nat, stale: Data): (c': Cache)
    requires Wf(c) && b < |c.mem|
    ensures Wf(c') && |c'.mem| == |c.mem|
  {
    if c.mem[b].Mapped? then c else Fault(c, b, stale)
  }

  function Store(c: Cache, b: nat, data: Data, stale: Data): (c': Cache)
    requires Wf(c) && b < |c.mem|
    ensures Wf(c') && |c'.mem| == |c.mem|
  {
    var c1 := Load(c, b, stale);
    if c1.halted then c1 else c1.(mem := c1.mem[b := Mapped(data, true)])
  }

  ghost predicate SameViews(c: Cache, c': Cache)
    requires Wf(c) && Wf(c')
  {
    |c'.mem| == |c.mem| && forall b: nat :: b < |c.mem| ==> View(c', b) == View(c, b)
  }

  // A fault on an absent block changes no view, whatever the new frame held; it panics exactly when the
  // block is beyond the disk or marked free.
  lemma FaultSpec(c: Cache, b: nat, stale: Data)
    requires Inv(c) && !c.halted && (b < |c.mem| ==> c.mem[b].Absent?)
    ensures var c' := Fault(c, b, stale);
      && Inv(c') && SameViews(c, c') && c'.disk == c.disk
      && (c'.halted <==> b >= |c.mem| || c.free[b])
      && (b < |c.mem| ==> c'.mem[b] == Mapped(c.disk[b], false))
  {
  }

  // flush_block changes no view, and leaves the disk agreeing with it.
  lemma FlushSpec(c: Cache, b: nat)
    requires Inv(c) && b < |c.mem|
    ensures var c' := Flush(c, b);
      && Inv(c') && SameViews(c, c') && c'.disk[b] == View(c, b)
      && (c'.mem[b].Mapped? ==> !c'.mem[b].dirty)
      && (forall d: nat :: d < |c.mem| && d != b ==> c'.disk[d] == c.disk[d] && c'.mem[d] == c.mem[d])
  {
  }

  lemma {:induction false} SyncFromSpec(c: Cache, b: nat)
    requires Inv(c)
    ensures var c' := SyncFrom(c, b);
      && Inv(c') && SameViews(c, c') && c'.halted == c.halted && c'.free == c.free
      && (forall d: nat :: b <= d < |c.mem| ==> c'.disk[d] == View(c, d))
      && (forall d: nat :: d < b && d < |c.mem| ==> c'.disk[d] == c.disk[d])
    decreases |c.mem| - b
  {
    if b < |c.mem| {
      FlushSpec(c, b);
      SyncFromSpec(Flush(c, b), b + 1);
    }
  }

  // The machine loses its memory.
  function Crash(c: Cache): (c': Cache)
    requires Wf(c)
    ensures Wf(c') && |c'.mem| == |c.mem|
  {
    c.(mem := seq(|c.mem|, _ => Absent))
  }

  // After fs_sync the disk holds every view except that of block 0, so losing memory loses nothing.
  lemma SyncIsDurable(c: Cache)
    requires Inv(c)
    ensures Inv(Sync(c)) && SameViews(c, Sync(c))
    ensures forall b: nat :: 1 <= b < |c.mem| ==> Sync(c).disk[b] == View(c, b) == View(Crash(Sync(c)), b)
  {
    SyncFromSpec(c, 1);
  }

  // ------------------------------------------------------------------
  // Runs: the cache is a flat array
  // ------------------------------------------------------------------

  datatype Op =
    | OpLoad(block: nat, stale: Data)
    | OpStore(block: nat, data: Data, stale: Data)
    | OpFlush(block: nat)
    | OpSync
    | OpMark(block: nat, isFree: bool)       // the bitmap changes

  function Step(c: Cache, op: Op): (c': Cache)
    requires Wf(c)
    ensures Wf(c') && |c'.mem| == |c.mem|
  {
    match op
    case OpLoad(b, z) => if b < |c.mem| then Load(c, b, z) else c.(halted := true)
    case OpStore(b, d, z) => if b < |c.mem| then Store(c, b, d, z) else c.(halted := true)
    case OpFlush(b) => if b < |c.mem| then Flush(c, b) else c.(halted := true)
    case OpSync => Sync(c)
    case OpMark(b, f) => if b < |c.free| then c.(free := c.free[b := f]) else c
  }

  function Run(c: Cache, ops: seq<Op>): (c': Cache)
    requires Wf(c)
    ensures Wf(c') && |c'.mem| == |c.mem|
    ensures c.halted ==> c'.halted
    decreases |ops|
  {
    if ops == [] || c.halted then c else Run(Step(c, ops[0]), ops[1..])
  }

  // The same operations on a plain array: only stores matter.
  function Flat(a: seq<Data>, op: Op): (a': seq<Data>)
    ensures |a'| == |a|
  {
    if op.OpStore? && op.block < |a| then a[op.block := op.data] else a
  }

  function FlatRun(a: seq<Data>, ops: seq<Op>): (a': seq<Data>)
    ensures |a'| == |a|
    decreases |ops|
  {
    if ops == [] then a else FlatRun(Flat(a, ops[0]), ops[1..])
  }

  ghost predicate Shows(c: Cache, a: seq<Data>)
    requires Wf(c)
  {
    |a| == |c.mem| && forall b: nat :: b < |c.mem| ==> View(c, b) == a[b]
  }

  lemma StepShows(c: Cache, a: seq<Data>, op: Op)
    requires Inv(c) && !c.halted && Shows(c, a)
    ensures Inv(Step(c, op)) && (!Step(c, op).halted ==> Shows(Step(c, op), Flat(a, op)))
  {
    match op
    case OpLoad(b, z) => if b < |c.mem| && c.mem[b].Absent? { FaultSpec(c, b, z); }
    case OpStore(b, d, z) => if b < |c.mem| && c.mem[b].Absent? { FaultSpec(c, b, z); }
    case OpFlush(b) => if b < |c.mem| { FlushSpec(c, b); }
    case OpSync => SyncFromSpec(c, 1);
    case OpMark(b, f) =>
  }

  // However loads, stores, flushes, syncs and bitmap changes interleave, a run that does not panic shows
  // the array that only the stores describe; and after a final sync a crash shows it too.
  lemma {:induction false} RunIsFlat(c: Cache, a: seq<Data>, ops: seq<Op>)
    requires Inv(c) && Shows(c, a) && !Run(c, ops).halted
    ensures Inv(Run(c, ops)) && Shows(Run(c, ops), FlatRun(a, ops))
    decreases |ops|
  {
    if ops != [] {
      StepShows(c, a, ops[0]);
      RunIsFlat(Step(c, ops[0]), Flat(a, ops[0]), ops[1..]);
    }
  }

  // An operation panics exactly when its block is beyond the disk, or is absent and marked free.
  lemma PanicsIff(c: Cache, op: Op)
    requires Inv(c) && !c.halted
    ensures Step(c, op).halted <==>
      match op
      case OpLoad(b, _) => b >= |c.mem| || (c.mem[b].Absent? && c.free[b])
      case OpStore(b, _, _) => b >= |c.mem| || (c.mem[b].Absent? && c.free[b])
      case OpFlush(b) => b >= |c.mem|
      case OpSync => false
      case OpMark(_, _) => false
  {
    if op.OpSync? {
      SyncFromSpec(c, 1);
    }
  }

  // Every block the operations name is on the disk and, when loaded or stored, marked in use.
  predicate InUse(free: seq<bool>, ops: seq<Op>)
    decreases |ops|
  {
    ops == [] ||
    match ops[0]
    case OpLoad(b, _) => b < |free| && !free[b] && InUse(free, ops[1..])
    case OpStore(b, _, _) => b < |free| && !free[b] && InUse(free, ops[1..])
    case OpFlush(b) => b < |free| && InUse(free, ops[1..])
    case OpSync => InUse(free, ops[1..])
    case OpMark(b, f) => InUse(if b < |free| then free[b := f] else free, ops[1..])
  }

  lemma BitmapAfter(c: Cache, op: Op)
    requires Inv(c)
    ensures Step(c, op).free == if op.OpMark? && op.block < |c.free| then c.free[op.block := op.isFree] else c.free
  {
    if op.OpSync? {
      SyncFromSpec(c, 1);
    }
  }

  // So a run over blocks in use never panics.
  lemma {:induction false} NeverPanics(c: Cache, ops: seq<Op>)
    requires Inv(c) && !c.halted && InUse(c.free, ops)
    ensures !Run(c, ops).halted
    decreases |ops|
  {
    if ops != [] {
      PanicsIff(c, ops[0]);
      BitmapAfter(c, ops[0]);
      StepInv(c, ops[0]);
      hide Step, Inv;
      NeverPanics(Step(c, ops[0]), ops[1..]);
    }
  }

  lemma StepInv(c: Cache, op: Op)
    requires Inv(c) && !c.halted
    ensures Inv(Step(c, op))
  {
    StepShows(c, seq(|c.mem|, b requires 0 <= b < |c.mem| => View(c, b)), op);
  }

  lemma CrashAfterSync(c: Cache, a: seq<Data>, ops: seq<Op>)
    requires Inv(c) && Shows(c, a) && !Run(c, ops).halted
    ensures forall b: nat :: 1 <= b < |a| ==> View(Crash(Sync(Run(c, ops))), b) == FlatRun(a, ops)[b]
  {
    RunIsFlat(c, a, ops);
    SyncIsDurable(Run(c, ops));
  }

  // ------------------------------------------------------------------
  // The code
  // ------------------------------------------------------------------

  class BlockServer {
    const mem: array<Page>
    const disk: array<Data>
    const free: array<bool>
    var halted: bool

    ghost function S(): Cache
      reads this, mem, disk, free
    {
      Cache(mem[..], disk[..], free[..], halted)
    }

    ghost predicate Valid()
      reads this, mem, disk, free
    {
      Inv(S())
    }

    // stale: the bytes of the frame sys_page_alloc hands out.
    method BcPgfault(blockno: nat, stale: Data)
      requires Valid() && !halted && (blockno < mem.Length ==> mem[blockno].Absent?)
      modifies this, mem
      ensures Valid() && S() == Fault(old(S()), blockno, stale) && SameViews(old(S()), S())
    {
      FaultSpec(S(), blockno, stale);
      if blockno >= mem.Length {
        halted := true;
        return;
      }
      mem[blockno] := Mapped(stale, false);
      mem[blockno] := Mapped(disk[blockno], true);
      mem[blockno] := mem[blockno].(dirty := false);
      if free[blockno] {
        halted := true;
      }
    }

    method FlushBlock(blockno: nat)
      requires Valid() && blockno < mem.Length
      modifies mem, disk
      ensures Valid() && S() == Flush(old(S()), blockno) && SameViews(old(S()), S())
    {
      FlushSpec(S(), blockno);
      if mem[blockno].Absent? || !mem[blockno].dirty {
        return;
      }
      disk[blockno] := mem[blockno].data;
      mem[blockno] := mem[blockno].(dirty := false);
    }

    method FsSync()
      requires Valid()
      modifies mem, disk
      ensures Valid() && S() == Sync(old(S())) && SameViews(old(S()), S())
      ensures forall b: nat :: 1 <= b < disk.Length ==> disk[b] == View(old(S()), b)
    {
      SyncFromSpec(S(), 1);
      var i := 1;
      while i < mem.Length
        invariant Valid() && 1 <= i
        invariant SyncFrom(S(), i) == Sync(old(S()))
      {
        FlushBlock(i);
        i := i + 1;
      }
      assert S() == Sync(old(S()));
    }
  }
}
