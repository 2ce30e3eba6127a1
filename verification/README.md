# Verification models of the JOS kernel and its user library

JOS is a small multiprocessor kernel for x86-64 with a user library, a user-level file server and, in the
network tree, a driver for the E1000 network card. This project holds Dafny models of its protocols and
data structures and proofs about them. `dafny verify dfyconfig.toml` checks everything.

Paths below are relative to the root of the repository. Where the two trees hold the same file the model
follows `JOS-with-file-system`; only the E1000 driver is taken from `JOS-with-network`.

## How the models are built

Where several parties act at once (environments, CPUs, driver and device, reader and writer) the model is a
state machine: a `Step` datatype, an `Enabled` predicate, an `Apply` function, and whole runs as sequences of
steps. A step is the unit the hardware or the kernel lock makes atomic: one system call, one user memory
access, one statement of lock-free code, one kernel entry. Theorems speak of every run.

Sequential code that assigns to variables is a class whose methods perform those assignments. Each method is
proved to leave the state a specification function describes, and the lemmas are about that function. For the
driver rings and for the pipe the other party runs, any number of times, between any two statements of a method.

Some records carry bookkeeping that the program does not store (the order of the free list, the owner of a
disk block, the packets so far). It never influences a decision of the modelled code.

| file | what it models |
|---|---|
| `CowFork.dfy`, `CowRights.dfy` | `pgfault`, `duppage` and the system calls they use, against a machine that copies eagerly; who may store where, and the bits duppage leaves |
| `PipeClose.dfy` | page reference counts of pipes under `dup`, `close` and `fork`; `_pipeisclosed` |
| `PipeFifo.dfy`, `PipeCode.dfy` | the ring buffer, statement by statement; the two calls as code |
| `PipeJoint.dfy` | ring and reference counts as one machine |
| `PageTable.dfy`, `PageWalk.dfy`, `Pmap.dfy`, `PmapRuns.dfy`, `PmapCode.dfy` | free list, reference counts, four-level tables: state and invariant, walks, calls, runs, code |
| `EnvIds.dfy`, `Kernel.dfy`, `KernelCode.dfy` | environment ids, scheduler, life cycle, IPC, kernel entries; the same as code |
| `KernelCalls.dfy` | what each kernel entry does, written out; when the kernel goes to the monitor |
| `KernelFailures.dfy` | runs from boot to an entry the kernel does not guard against |
| `FsBlocks.dfy`, `FsFiles.dfy`, `FsCode.dfy` | block ownership; files as byte sequences; the same as code |
| `FsSpace.dfy`, `FsExact.dfy` | exactly when whole reads and writes succeed, and when they keep ownership |
| `BlockCache.dfy` | the write-back cache and `fs_sync` |
| `E1000Rx.dfy`, `E1000Tx.dfy` | the receive and transmit rings, driver and device |
| `Leb128.dfy` | the variable-length integer decoders |
| `Cfa.dfy`, `CfaCode.dfy` | the DWARF call-frame interpreter against the row machine of DWARF Version 3, section 6.4, and the rules that machine builds |

## Where the code falls short of its comments

These are kept as they are in the models. For each there is the exact condition under which the code does what
is meant, and a run or an input on which it does not.

- `lib/fork.c:34` lets the fault handler run for any page. `CowFork.FaultGuardShare` and
  `CowFork.FaultGuardStale` say which faults then break the eager meaning, `CowFork.SharedFaultReached` and
  `CowFork.StaleFaultReached` reach them; the machine's `FaultEnter` step excludes exactly these two families.
- `lib/pipe.c:118-125`: end of file can be reported with bytes still in the ring
  (`PipeFifo.EofLeavesBytesIff`, `PipeFifo.EofWithAByteLeft`).
- `kern/pmap.c:637` hides the variable the clean-up at 652 tests, and `pml4e_walk` clears only its own
  entry: a table page is lost exactly in the case of `PmapRuns.ExactIffLeakFree`.
- `kern/pmap.c:491-526`: the test for a page that is already free misses the last page of the free list
  (`PageTable.PageFreeExact`).
- `kern/env.c:541` and `kern/syscall.c:109` rely on their callers. Runs are sequences of allowed entries, and
  `Kernel.GuardsAreExact` shows that an entry keeps the invariant exactly when it is allowed;
  `KernelFailures.DestroyedTwice` and `KernelFailures.RunnableWhileRunning` end in entries that are not.
- `fs/fs.c:184-195` does not clear a fresh indirect block, and `fs/fs.c:168` lets a block be placed just past
  the end: `FsBlocks.GetBlockExact` for one call of `file_get_block`. For whole reads and writes
  `FsExact.FileReadExact` and `FsExact.FileWriteExact` give the condition `FsFiles.FreshBefore`, which the
  caller can check on the disk before the call; `FsExact.DirtyDisk` and `FsExact.SelfNamedIndirect` are disks
  on which it fails.
- `kern/e1000.c:83-102` can fill the transmit ring completely, after which the device owns nothing and the
  driver accepts nothing (`E1000Tx.FullRingIsStuck`, `E1000Tx.FullRingReached`).
- `kern/libdwarf_frame.c:88-92` keeps initial and remembered rules in one table: `Cfa.AgreeIffServes`, for every
  program. `Cfa.RestoreAfterRemember` and `Cfa.NestedRemember` work out two programs of two and five
  instructions. `same_value` does not start a row (`Cfa.RowPcOfRun`); the value type survives `undefined`,
  `same_value` and `register` (`Cfa.EffectReads`).
- `kern/libdwarf_rw.c:173-257` shifts an `int`: `Leb128.UnsignedRoundTrip`, `Leb128.SignedRoundTrip`. What a
  shift by more than 31 gives, which C leaves undefined, is a parameter of the decoders.
- `kern/syscall.c:230` allocates without clearing although its comment promises a cleared page; the model
  hands out the stale bytes.

## Model

| member | source | states |
|---|---|---|
| CowFork.CowIsEager | JOS-with-file-system/lib/fork.c:19-98 | Along every interleaving of loads, stores, fault-handler steps and duppage steps of all environments, the eager machine (one copy per page, no copy-on-write) can take the corresponding events and ends with the same objects and bytes; that no store is lost the other way is CowRights.StoresAgree |
| CowFork.EveryReadAgrees | JOS-with-file-system/lib/fork.c:19-98 | A user load, after any run from a quiet state, returns the byte the eager machine holds there; PTE_SHARE pages denote one common object |
| CowFork.OneCopyPerDuppage | JOS-with-file-system/lib/fork.c:68-98 | Between entry and return of duppage(c, p) the child page is created exactly once in the eager machine, whatever the other environments and the parent's own fault handler do meanwhile |
| CowFork.CowNeverWritable | JOS-with-file-system/lib/fork.c:76-91 | With no duppage and no PFTEMP window open, a frame that has a copy-on-write mapping has no writable mapping |
| CowFork.InvStep | JOS-with-file-system/lib/fork.c:19-98 | Every step keeps exclusiveness of writable private frames (up to the two windows), the program points of handler and duppage, and the parent/child bookkeeping |
| CowFork.AgreeStep | JOS-with-file-system/lib/fork.c:19-98 | One step of the copy-on-write machine is one event of the eager machine |
| CowFork.FaultGuardShare | JOS-with-file-system/lib/fork.c:34-35 | The handler's result agrees with the eager machine exactly when the faulting page is not PTE_SHARE: the guard does not keep other faults out |
| CowFork.FaultGuardStale | JOS-with-file-system/lib/fork.c:68-98 | When duppage returns from a page whose bits it had read as read-only and private, the copy-on-write and the eager machine still agree; some later store of the parent changes the byte its child reads, while the eager child keeps it, if and only if a fault made the page writable after the bits were read |
| CowFork.StaleFaultReached | JOS-with-file-system/lib/fork.c:34-98 | Such a state is reached from every quiet state with a read-only private page: fork starts, duppage reads the bits, the parent faults on the page, duppage goes on; parent and child then differ from the eager machine |
| CowFork.SharedFaultSplits | JOS-with-file-system/lib/fork.c:34-50 | After a fault on a shared page a store to it no longer reaches the other mappings of the page, as it does in the eager machine |
| CowFork.SharedFaultReached | JOS-with-file-system/lib/fork.c:34-50 | Two environments with a read-only shared page: the handler runs from this first state and a store of one then stays hidden from the other |
| CowFork.PgfaultIsRun | JOS-with-file-system/lib/fork.c:44-50 | The handler run without interruption is a run of the machine and ends with p mapped writably to frame f holding the old bytes, PFTEMP unmapped |
| CowFork.UserMemory.Pgfault | JOS-with-file-system/lib/fork.c:44-50 | sys_page_alloc, memmove, sys_page_map and sys_page_unmap in the source's order leave exactly that table and memory |
| CowFork.UserMemory.Duppage | JOS-with-file-system/lib/fork.c:68-98 | A shared or read-only page is mapped into the child with the parent's own entry; any other ends copy-on-write and not writable in both, on one frame; nothing else changes |
| CowRights.StoresAgree | JOS-with-file-system/lib/fork.c:19-98 | The other half of the agreement: after any run an environment can store to a page, at most after one run of its fault handler, whenever the eager machine allows it, that is when the page was writable before each fork it came through; and it can store at once to no other |
| CowRights.RightsKept | JOS-with-file-system/lib/fork.c:19-98 | Each step keeps the permission bits in step with those rights |
| CowRights.DuppageBits | JOS-with-file-system/lib/fork.c:68-98 | When duppage returns, whatever happened meanwhile: a shared page has in the child exactly the parent's entry, PTE_W included; a private page that was writable or copy-on-write is copy-on-write and not writable; a read-only one is read-only |
| CowRights.DuppageIsRun | JOS-with-file-system/lib/fork.c:68-98 | The three cases of duppage run without interruption are a run of the machine and end in the table of UserMemory.Duppage |
| CowFork.UserMemory.Memmove | JOS-with-file-system/lib/fork.c:46 | Byte by byte the page at the target becomes the page at the source, the source unchanged |
| CowFork.UserMemory.SysPageMap | JOS-with-file-system/kern/syscall.c:294-301 | Maps the source frame; refuses exactly when the source is unmapped or write access is asked over a read-only mapping |
| PipeClose.PipeRefsCoverFds | JOS-with-file-system/lib/pipe.c:55-63 | From the state pipe leaves, in every run of single map and unmap steps of dup, close and fork, mappings of the Pipe page are at least those of both Fd pages together |
| PipeClose.ClosedIsNeverFalse | JOS-with-file-system/lib/pipe.c:75-89 | On one CPU, with the env_runs double test, _pipeisclosed answers true only when the other end has no mapping, and it never gets one again |
| PipeClose.ExactWhenSettled | JOS-with-file-system/lib/pipe.c:75-89 | With no close, dup or fork under way, _pipeisclosed answers true if and only if the other end is unmapped |
| PipeClose.StaysUnmapped | JOS-with-file-system/lib/fd.c:173-201 | An end of a pipe without any mapping is never mapped again by dup, close or fork |
| PipeClose.InvStep | JOS-with-file-system/lib/fd.c:100-201 | Every single map or unmap keeps "an Fd page of a pipe is mapped only together with its data page" in every table, including a half-copied child |
| PipeClose.AfterPipeInv | JOS-with-file-system/lib/pipe.c:28-63 | The state pipe returns satisfies that invariant |
| PipeClose.Descriptors.DevpipeClose | JOS-with-file-system/lib/pipe.c:185-190 | Fd page first, then data page: every table seen on the way is paired |
| PipeClose.Descriptors.Close | JOS-with-file-system/lib/fd.c:148-158 | The descriptor page is unmapped, with its data page if it is a pipe's, nothing else; only through paired tables |
| PipeClose.ForkedAlike | JOS-with-file-system/lib/fork.c:141-165 | The child that fork makes runnable has its parent's whole descriptor table |
| PipeClose.Descriptors.Dup | JOS-with-file-system/lib/fd.c:173-201 | Closes the target, maps data then Fd page: the target then has the source's pages, the other descriptors theirs; every table seen on the way is paired |
| PipeFifo.Fifo | JOS-with-file-system/lib/pipe.c:104-172 | Under every statement-level interleaving of one reader and one writer: 0 <= wpos - rpos <= 32, the cells in [rpos, wpos) hold the written bytes, the delivered bytes are a prefix of the written ones |
| PipeFifo.ReadReturns | JOS-with-file-system/lib/pipe.c:104-137 | A devpipe_read(n) about to return r has delivered exactly the next r written bytes; it returns fewer than n only with every byte delivered that was written before it was called, and none only after the writer closed |
| PipeFifo.WriteReturns | JOS-with-file-system/lib/pipe.c:139-172 | A devpipe_write(data) about to return has appended all of data and returns its length, or, after the ring was full and with the readers gone, appended a proper prefix and returns 0 |
| PipeFifo.EofIsFinal | JOS-with-file-system/lib/pipe.c:124-125 | After end of file was reported the write position and the written bytes never change |
| PipeFifo.EofLeavesBytesIff | JOS-with-file-system/lib/pipe.c:118-125 | In every run that reaches a closed test answered true: the reader did an emptiness test before, and bytes are left in the ring if and only if the writer did a p_wpos++ after the last one |
| PipeFifo.EofWithAByteLeft | JOS-with-file-system/lib/pipe.c:118-125 | Such a run exists: end of file is reported with a byte still in the ring |
| PipeFifo.InvStep | JOS-with-file-system/lib/pipe.c:104-172 | Each statement of either side keeps ring contents, positions and program points |
| PipeCode.PipePage.DevpipeRead | JOS-with-file-system/lib/pipe.c:104-137 | The read loops, the writer running before every statement: the result is the next written bytes, at most n; fewer than n only with every byte delivered that was written before the call; empty for n > 0 only at end of file with every writer gone |
| PipeCode.PipePage.DevpipeWrite | JOS-with-file-system/lib/pipe.c:139-172 | The write loops, the reader running before every statement: all of data is appended and its length returned, or readers are gone, 0 is returned and a proper prefix was appended; less than all only after the ring was full |
| PipeCode.PipePage.AwaitByte | JOS-with-file-system/lib/pipe.c:118-131 | The inner loop of the read: stops with data already taken, or with every writer gone, else tests again |
| PipeCode.PipePage.AwaitRoom | JOS-with-file-system/lib/pipe.c:153-164 | The inner loop of the write: stops only with every reader gone |
| PipeCode.PipePage.TakeByte | JOS-with-file-system/lib/pipe.c:133-134 | One byte is delivered and p_rpos advanced after it was taken |
| PipeCode.PipePage.PutByte | JOS-with-file-system/lib/pipe.c:167-168 | One byte is stored before p_wpos is advanced, and is then the last written byte |
| PipeCode.PipePage.WriterMoves | JOS-with-file-system/lib/pipe.c:139-172 | Any statement of the writer keeps the invariant under any reader |
| PipeCode.PipePage.ReaderMoves | JOS-with-file-system/lib/pipe.c:104-137 | Any statement of the reader keeps the invariant under any writer |
| PipeJoint.RunProjects | JOS-with-file-system/lib/pipe.c:75-172 | One machine in which the answers a blocked read or write gets are computed by _pipeisclosed from the reference counts in its own environment, and an end closes when no environment maps it: each of its runs is a run of the ring and a run of the descriptor tables |
| PipeJoint.EndOfFileIsReal | JOS-with-file-system/lib/pipe.c:104-172 | In every run of that machine after pipe the bytes arrive in order, and once a read has reported end of file no environment maps the write end and nothing is ever written again |
| PipeJoint.ClosedAnswerIsTrue | JOS-with-file-system/lib/pipe.c:124-125 | A blocked read, or write, is told that the pipe is closed only when no environment maps the other end |
| PipeJoint.InvStep | JOS-with-file-system/lib/pipe.c:75-172 | Each statement, descriptor call and scheduling decision keeps both invariants and keeps an end open exactly while some environment maps it |
| PageTable.IndexSplit | JOS-with-file-system/inc/mmu.h:35-51 | A 48-bit page number is rebuilt from its four indices |
| PageTable.IndexSplitInjective | JOS-with-file-system/inc/mmu.h:35-51 | Equal indices mean equal page numbers |
| PageTable.LeafUnique | JOS-with-file-system/kern/pmap.c:564-704 | Two addresses that share a page-table slot are the same address of the same root |
| PageTable.PopInv | JOS-with-file-system/kern/pmap.c:457-477 | page_alloc keeps the invariant, all counts and every view, and hands out a frame nobody references |
| PageTable.PushInv | JOS-with-file-system/kern/pmap.c:491-526 | page_free of an unreferenced page keeps the invariant and every view, including insertion into an empty list |
| PageTable.PageFreeExact | JOS-with-file-system/kern/pmap.c:491-526 | page_free keeps the invariant if and only if the page is allocated and unreferenced; its panics catch every second free but that of the last page of the list |
| PageTable.LinkInv | JOS-with-file-system/kern/pmap.c:584-591 | Entering a zeroed page as a table keeps the tree, the counts and the free list |
| PageTable.LinkViews | JOS-with-file-system/kern/pmap.c:584-591 | A new table page is invisible in every address space, because it was zeroed |
| PageTable.LeafInv | JOS-with-file-system/kern/pmap.c:788-807 | A leaf store keeps the invariant when the reference count moves with it |
| PageTable.LeafViews | JOS-with-file-system/kern/pmap.c:788-807 | A leaf store changes one key of one address space |
| PageTable.NamedIsCounted | JOS-with-file-system/kern/pmap.c:490-537 | A frame named by an entry of a live table has a positive count |
| PageWalk.Pml4eWalkOk | JOS-with-file-system/kern/pmap.c:564-609 | Every walk keeps the invariant and every view; a creating walk fails exactly when the free list is shorter than the number of absent tables; a frame is lost exactly when the top entry was absent and two frames were left |
| PageWalk.PdpeWalkOk | JOS-with-file-system/kern/pmap.c:616-661 | The same one level down; on failure the state is the old one, or the old one with one new empty directory (the shadowed variable prevents the clean-up) |
| PageWalk.PgdirWalkOk | JOS-with-file-system/kern/pmap.c:666-704 | The lowest walk reaches the slot or changes nothing |
| PageWalk.FreshWalk | JOS-with-file-system/kern/pmap.c:581-609 | A walk from an absent top entry: needs three frames, keeps one frame in the list when it fails with any, and leaks exactly with two |
| PageWalk.FillOk | JOS-with-file-system/kern/pmap.c:584-591 | Allocating, counting and entering a table page: what changes and that no view does |
| PageWalk.DropInv | JOS-with-file-system/kern/pmap.c:603-607 | The clean-up of pml4e_walk keeps the invariant |
| PageWalk.DropViews | JOS-with-file-system/kern/pmap.c:603-607 | The clean-up of pml4e_walk changes no view |
| PageWalk.WalkIsPure | JOS-with-file-system/kern/pmap.c:564-704 | When all tables exist a walk changes nothing and returns the slot |
| PageWalk.Pml4eWalkData | JOS-with-file-system/kern/pmap.c:564-704 | No walk touches a data frame; a lost frame stays lost |
| Pmap.InsertSpec | JOS-with-file-system/kern/pmap.c:770-811 | page_insert sets one key of one address space to (frame, perm with PTE_P), or fails, exactly when memory is short, and changes no view; the reference count rises unless the same page was there |
| Pmap.RemoveSpec | JOS-with-file-system/kern/pmap.c:866-886 | page_remove deletes one key and drops one reference; the frame is freed exactly with its last reference |
| Pmap.LookupSpec | JOS-with-file-system/kern/pmap.c:823-848 | page_lookup answers what the abstract map says, although it walks with create set, and changes no view |
| Pmap.MissingMeansUnmapped | JOS-with-file-system/kern/pmap.c:823-848 | A missing table means nothing is mapped, so a failed walk hides no mapping |
| Pmap.MappedIsLive | JOS-with-file-system/kern/pmap.c:490-537 | A mapped frame is allocated, referenced and not on the free list |
| PmapRuns.RunRefinesMap | JOS-with-file-system/kern/pmap.c:457-886 | After any sequence of allocations, frees, walks, lookups, insertions and removals, with or without memory to spare, the tables stand for the map those calls describe and the kernel has not panicked |
| PmapRuns.LookupAgrees | JOS-with-file-system/kern/pmap.c:823-848 | page_lookup after any such sequence agrees with that map |
| PmapRuns.NeverFreeWhileMapped | JOS-with-file-system/kern/pmap.c:490-537 | After any such sequence a mapped frame is off the free list, its pp_ref equals the number of entries naming it, and the free list has no duplicate |
| PmapRuns.ExactIffLeakFree | JOS-with-file-system/kern/pmap.c:564-660 | Reference counts stay equal to the number of entries over a run if and only if no call walked from an absent top entry with exactly two free frames |
| PmapRuns.ExactIffNoLost | JOS-with-file-system/kern/pmap.c:564-660 | Counts are always at least the number of entries, and equal exactly when no frame is lost |
| PmapRuns.BootInv | JOS-with-file-system/kern/pmap.c:391-443 | The invariant holds of fresh roots and a full free list |
| PmapCode.PhysicalMemory.Alloc | JOS-with-file-system/kern/pmap.c:457-477 | page_alloc: on the page array and the table pages in place, the new state and result are those of the specification function the lemmas above are about |
| PmapCode.PhysicalMemory.InsertAtBegining | JOS-with-file-system/kern/pmap.c:491-502 | insertAtBegining: on the page array and the table pages in place, the new state and result are those of the specification function the lemmas above are about |
| PmapCode.PhysicalMemory.FreePage | JOS-with-file-system/kern/pmap.c:507-526 | page_free with its two panics: on the page array and the table pages in place, the new state and result are those of the specification function the lemmas above are about |
| PmapCode.PhysicalMemory.Decref | JOS-with-file-system/kern/pmap.c:532-537 | page_decref on 16 bits: on the page array and the table pages in place, the new state and result are those of the specification function the lemmas above are about |
| PmapCode.PhysicalMemory.WalkPgdir | JOS-with-file-system/kern/pmap.c:666-704 | pgdir_walk: on the page array and the table pages in place, the new state and result are those of the specification function the lemmas above are about |
| PmapCode.PhysicalMemory.WalkPdpe | JOS-with-file-system/kern/pmap.c:616-661 | pdpe_walk, without the dead clean-up: on the page array and the table pages in place, the new state and result are those of the specification function the lemmas above are about |
| PmapCode.PhysicalMemory.WalkPml4e | JOS-with-file-system/kern/pmap.c:564-609 | pml4e_walk with its clean-up: on the page array and the table pages in place, the new state and result are those of the specification function the lemmas above are about |
| PmapCode.PhysicalMemory.LookupPage | JOS-with-file-system/kern/pmap.c:823-848 | page_lookup: on the page array and the table pages in place, the new state and result are those of the specification function the lemmas above are about |
| PmapCode.PhysicalMemory.RemovePage | JOS-with-file-system/kern/pmap.c:866-886 | page_remove: on the page array and the table pages in place, the new state and result are those of the specification function the lemmas above are about |
| PmapCode.PhysicalMemory.InsertPage | JOS-with-file-system/kern/pmap.c:770-811 | page_insert: on the page array and the table pages in place, the new state and result are those of the specification function the lemmas above are about |
| Kernel.OneEnvironmentOneCpu | JOS-with-file-system/kern/sched.c:35-49 | Whenever the kernel lock is free: each curenv is RUNNING or DYING, each RUNNING or DYING environment is curenv of exactly one CPU |
| Kernel.TrapInv | JOS-with-file-system/kern/trap.c:292-335 | Every kernel entry, with zombie collection, dispatch and return or yield, keeps that, the sound records and the free list |
| Kernel.BootInv | JOS-with-file-system/kern/env.c:232-262 | The invariant holds with all environments free |
| Kernel.CreateInv | JOS-with-file-system/kern/env.c:232-262 | Creating a first environment keeps the invariant |
| Kernel.RunInv | JOS-with-file-system/kern/trap.c:292-335 | The invariant holds after any sequence of kernel entries, unless a CPU sits in the monitor |
| Kernel.EnvRunInv | JOS-with-file-system/kern/env.c:591-635 | env_run of a runnable, or of the own running, environment restores the invariant |
| Kernel.SchedHaltInv | JOS-with-file-system/kern/sched.c:57-80 | sched_halt keeps the invariant or enters the monitor; KernelCalls.MonitorIff says which |
| Kernel.SchedYieldInv | JOS-with-file-system/kern/sched.c:11-50 | sched_yield keeps the invariant |
| Kernel.EnvDestroyInv | JOS-with-file-system/kern/env.c:541-558 | env_destroy, not repeated on a DYING environment, keeps the invariant |
| KernelCalls.MonitorIff | JOS-with-file-system/kern/sched.c:57-80 | A kernel entry, whatever its cause, ends in the monitor if and only if it leaves no environment ENV_RUNNABLE, ENV_RUNNING or ENV_DYING |
| KernelCalls.MonitorIffInRun | JOS-with-file-system/kern/sched.c:57-80 | The same for the state after any run of entries |
| KernelCalls.EntryRunsOne | JOS-with-file-system/kern/env.c:591-635 | A kernel entry raises by one the env_runs of the environment its CPU leaves the kernel with, and no other, and changes no other CPU's environment |
| KernelCalls.RunCounts | JOS-with-file-system/kern/env.c:591-635 | Each env_run raises exactly its target's env_runs, by one |
| KernelCalls.YieldDoes | JOS-with-file-system/kern/sched.c:11-50 | The runnable environment at the least distance after the last one chosen runs and the caller becomes ENV_RUNNABLE; with none runnable the caller goes on and an idle CPU stays idle |
| KernelCalls.RecvDoes | JOS-with-file-system/kern/syscall.c:434-449 | An aligned receive leaves its caller receiving, NOT_RUNNABLE and on no CPU |
| KernelCalls.NothingDone | JOS-with-file-system/kern/syscall.c:434-449 | An unaligned receive, like the calls that touch no scheduling state, changes nothing but the caller's env_runs |
| KernelCalls.SendDoes | JOS-with-file-system/kern/syscall.c:371-414 | A send to a live receiving environment makes it RUNNABLE with the sender's id and value and no longer receiving; any other send changes nothing |
| KernelCalls.DestroyDoes | JOS-with-file-system/kern/env.c:541-558 | env_destroy marks an environment running on another CPU DYING and frees any other, onto the head of the free list and off every CPU; a forbidden or unknown id changes nothing |
| KernelCalls.DyingIsFreed | JOS-with-file-system/kern/trap.c:306-312 | A DYING environment is freed when its CPU next enters the kernel, whatever for |
| KernelCalls.CrashDoes | JOS-with-file-system/kern/trap.c:268-274 | A fault without a handler frees the faulting environment |
| KernelCalls.ExoforkDoes | JOS-with-file-system/kern/syscall.c:76-100 | sys_exofork takes the head of the free list for a NOT_RUNNABLE child of the caller with a new id; without memory or a free slot it changes nothing |
| KernelCalls.SetStatusDoes | JOS-with-file-system/kern/syscall.c:109-131 | sys_env_set_status sets the status of the permitted target and nothing else |
| KernelCalls.SelfStatusDoes | JOS-with-file-system/kern/syscall.c:109-131 | On the caller itself, where allowed: the status is set, and unless it is ENV_RUNNING the caller leaves its CPU |
| KernelCalls.IdNamesOne | JOS-with-file-system/kern/env.c:79-113 | An id other than 0 resolves to the live environment that has it, if the caller may name it, and otherwise to none |
| Kernel.GuardsAreExact | JOS-with-file-system/kern/trap.c:292-335 | A kernel entry, whatever its cause and target, the caller itself included, keeps the invariant or enters the monitor if and only if it is allowed: env_destroy not repeated on a DYING environment; sys_env_set_status keeping a stopped environment stopped, a running one on its CPU, no receiver made runnable; on the caller, RUNNABLE only if the search next picks another |
| Kernel.DestroyGuardIsExact | JOS-with-file-system/kern/env.c:541-558 | env_destroy of another live environment keeps the invariant if and only if it is not DYING |
| KernelFailures.DestroyedTwice | JOS-with-file-system/kern/env.c:541-558 | From boot, by allowed entries only, a child running on another CPU becomes DYING; destroying it again breaks the invariant |
| KernelFailures.RunnableWhileRunning | JOS-with-file-system/kern/syscall.c:109-131 | From boot, the only environment sets itself RUNNABLE: the search picks it, env_run leaves it RUNNABLE while it runs, and the invariant is broken |
| Kernel.SearchIsNearest | JOS-with-file-system/kern/sched.c:32-42 | The search picks the runnable slot at the least circular distance, or none exists |
| Kernel.YieldProgress | JOS-with-file-system/kern/sched.c:32-42 | Passing over a runnable environment strictly lowers its distance |
| Kernel.TrapProgress | JOS-with-file-system/kern/sched.c:32-42 | A kernel entry makes at most one choice, and any choice of another brings the waiting environment closer |
| Kernel.BoundedWaiting | JOS-with-file-system/kern/sched.c:32-42 | An environment that stays RUNNABLE is passed over at most NENV - 1 times in any run |
| Kernel.IdResolvesIff | JOS-with-file-system/kern/env.c:79-113 | The identifier of the n-th allocation of a slot resolves, to that slot only, exactly when the slot is live, the caller permitted, and the current allocation a whole number of periods later |
| Kernel.StaleIdNeverResolves | JOS-with-file-system/kern/env.c:79-113 | Within 2^19 - 1 allocations of a slot an identifier resolves if and only if that very allocation is live and permitted |
| Kernel.Rendezvous | JOS-with-file-system/kern/syscall.c:371-449 | A receiver is NOT_RUNNABLE or FREE and on no CPU; completed receives and accepted sends of an allocation are equally many, and the fields show the last message |
| Kernel.OnlySendsFillInboxes | JOS-with-file-system/kern/syscall.c:371-414 | A message is added only by an accepted send to the receiver, with the sender's id and value |
| EnvIds.IdIsClosedForm | JOS-with-file-system/kern/env.c:245-249 | The identifier of the n-th allocation, with the 32-bit wrap, in closed form |
| EnvIds.IdShape | JOS-with-file-system/kern/env.c:245-249 | Every identifier is positive and ENVX of it is its slot |
| EnvIds.IdsCollideIff | JOS-with-file-system/kern/env.c:245-249 | Two identifiers are equal exactly for the same slot and allocations a multiple of 2^19 - 1 apart |
| KernelCode.KernelState.RunEnv | JOS-with-file-system/kern/env.c:591-635 | env_run as assignments to the kernel's variables: the new state and result are those of the function the lemmas of Kernel are about |
| KernelCode.KernelState.Halt | JOS-with-file-system/kern/sched.c:57-80 | sched_halt with its loop as assignments to the kernel's variables: the new state and result are those of the function the lemmas of Kernel are about |
| KernelCode.KernelState.Yield | JOS-with-file-system/kern/sched.c:11-50 | sched_yield with its search loop as assignments to the kernel's variables: the new state and result are those of the function the lemmas of Kernel are about |
| KernelCode.KernelState.FreeEnv | JOS-with-file-system/kern/env.c:530-533 | status and free list in env_free as assignments to the kernel's variables: the new state and result are those of the function the lemmas of Kernel are about |
| KernelCode.KernelState.DestroyEnv | JOS-with-file-system/kern/env.c:541-558 | env_destroy as assignments to the kernel's variables: the new state and result are those of the function the lemmas of Kernel are about |
| KernelCode.KernelState.AllocEnv | JOS-with-file-system/kern/env.c:231-262 | env_alloc as assignments to the kernel's variables: the new state and result are those of the function the lemmas of Kernel are about |
| KernelCode.KernelState.Lookup | JOS-with-file-system/kern/env.c:79-113 | envid2env as assignments to the kernel's variables: the new state and result are those of the function the lemmas of Kernel are about |
| KernelCode.KernelState.SysExofork | JOS-with-file-system/kern/syscall.c:76-100 | sys_exofork as assignments to the kernel's variables: the new state and result are those of the function the lemmas of Kernel are about |
| KernelCode.KernelState.SysIpcTrySend | JOS-with-file-system/kern/syscall.c:371-414 | sys_ipc_try_send as assignments to the kernel's variables: the new state and result are those of the function the lemmas of Kernel are about |
| KernelCode.KernelState.SysIpcRecv | JOS-with-file-system/kern/syscall.c:427-449 | sys_ipc_recv as assignments to the kernel's variables: the new state and result are those of the function the lemmas of Kernel are about |
| KernelCode.KernelState.Dispatch | JOS-with-file-system/kern/trap.c:322-327 | the dispatched call as assignments to the kernel's variables: the new state and result are those of the function the lemmas of Kernel are about |
| KernelCode.KernelState.EnterKernel | JOS-with-file-system/kern/trap.c:292-335 | trap from lock to unlock as assignments to the kernel's variables: the new state and result are those of the function the lemmas of Kernel are about |
| FsBlocks.WordsRoundTrip | JOS-with-file-system/fs/fs.c:174-182 | Words of an indirect block survive being read as bytes and back |
| FsBlocks.WordsLittleEndian | JOS-with-file-system/fs/fs.c:174-182 | Word i of a block is its bytes 4i to 4i+3, least significant first |
| FsBlocks.InvSound | JOS-with-file-system/fs/fs.c:28-80 | The invariant with bookkeeping implies: a bit says in use exactly when the block is reserved or named, no block is named twice, slots at or past ceil(size/4096) are zero |
| FsBlocks.ClaimInv | JOS-with-file-system/fs/fs.c:57-80 | Taking a free block for an empty slot keeps ownership; for the indirect pointer, if the block reads as zero |
| FsBlocks.ReleaseInv | JOS-with-file-system/fs/fs.c:39-46 | Freeing the block of a slot keeps ownership; for the indirect pointer, if no indirect slot is in use |
| FsBlocks.WalkInv | JOS-with-file-system/fs/fs.c:149-204 | file_block_walk keeps ownership and all slots, given that a fresh indirect block reads as zero |
| FsBlocks.GetBlockInv | JOS-with-file-system/fs/fs.c:213-250 | file_get_block keeps ownership, answers the block the slot then holds, and changes no other slot; a slot in use is answered without any change |
| FsBlocks.GetBlockExact | JOS-with-file-system/fs/fs.c:149-250 | Ownership survives file_get_block if and only if a fresh indirect block, when one is taken, reads as zero and the call does not put a block at the end of a file that fills its last block |
| FsBlocks.FormatInv | JOS-with-file-system/fs/fs.c:86-101 | A formatted disk with empty files satisfies the invariant |
| FsFiles.FileReadSpec | JOS-with-file-system/fs/fs.c:413-436 | file_read returns exactly the bytes of [offset, min(offset + count, size)), across direct and indirect blocks and unaligned ends; bytes with a value keep it |
| FsFiles.ReadWithoutHoles | JOS-with-file-system/fs/fs.c:413-436 | Without holes in the range a read succeeds and changes nothing |
| FsFiles.FileWriteSpec | JOS-with-file-system/fs/fs.c:442-464 | file_write: on success the old bytes with buf spliced in at offset, size the larger of old size and end; in every case other files and bytes outside the request are unchanged and ownership is kept; when it succeeds is FsSpace.FileWriteOutcome |
| FsSpace.FileWriteOutcome | JOS-with-file-system/fs/fs.c:442-464 | file_write succeeds if and only if the request ends within 1034 blocks and the free blocks are at least the empty slots of the request plus one for a needed and missing indirect block; it then takes exactly those; out of reach it fails with -E_INVAL, short of blocks with -E_NO_DISK and no free block left |
| FsSpace.FileReadOutcome | JOS-with-file-system/fs/fs.c:413-436 | The same for file_read and the holes it meets; on success it returns all bytes up to min(offset + count, size) |
| FsSpace.WriteWithoutHoles | JOS-with-file-system/fs/fs.c:442-464 | Writing where no byte is a hole always succeeds and takes no block |
| FsSpace.GetBlockSpace | JOS-with-file-system/fs/fs.c:213-250 | file_get_block succeeds if and only if the free blocks suffice for the slot and, past the direct slots, a missing indirect block |
| FsFiles.ReadBack | JOS-with-file-system/fs/fs.c:413-464 | What was written is what file_read then returns |
| FsFiles.FreshWhenClean | JOS-with-file-system/fs/fs.c:184-195 | The condition of the read and write theorems holds when the file has its indirect block, the request stays in the direct blocks, or all free blocks read as zero |
| FsExact.FileReadExact | JOS-with-file-system/fs/fs.c:413-436 | A whole file_read keeps block ownership if and only if the free block that would become the indirect block, when the request needs one, reads as zero: a condition on the disk before the call |
| FsExact.FileWriteExact | JOS-with-file-system/fs/fs.c:442-464 | The same for a whole file_write, extension included, unless that block holds its own number in a slot the request writes |
| FsExact.SelfNamedIndirect | JOS-with-file-system/fs/fs.c:442-464 | That exception is needed: a disk of four blocks on which such a write succeeds, ownership is kept, and the bytes are lost |
| FsExact.DirtyDisk | JOS-with-file-system/fs/fs.c:184-195 | On every formatted disk of at least four blocks whose blocks do not read as zero, growing an empty file past its direct blocks and reading one byte there breaks ownership |
| FsBlocks.StaleWord | JOS-with-file-system/fs/fs.c:184-195 | However far later calls on the file go on, a non-zero word of the uncleared indirect block keeps ownership broken |
| FsFiles.TruncateSpec | JOS-with-file-system/fs/fs.c:492-508 | file_truncate_blocks empties exactly the slots from ceil(new/4096) on, and frees exactly the non-zero ones plus the dropped indirect block |
| FsFiles.SetSizeSpec | JOS-with-file-system/fs/fs.c:511-519 | file_set_size keeps ownership, every other file and bytes below both sizes; shrinking raises the free-block count by exactly the slots cut off plus one when the indirect block is dropped, so no block is freed twice |
| FsFiles.FreeSlotSpec | JOS-with-file-system/fs/fs.c:468-481 | file_free_block empties one slot and frees its block, or silently does nothing |
| FsFiles.GetBlockBytes | JOS-with-file-system/fs/fs.c:213-250 | file_get_block changes no byte that has a value, and nothing of other files |
| FsFiles.PokeSpec | JOS-with-file-system/fs/fs.c:458 | One memmove into a block changes those bytes of that file only |
| FsCode.FileSystem.BlockIsFree | JOS-with-file-system/fs/fs.c:28-36 | block_is_free in place: the new bitmap, blocks and records and the result are those of the specification function the lemmas of FsBlocks and FsFiles are about |
| FsCode.FileSystem.FreeBlock | JOS-with-file-system/fs/fs.c:39-46 | free_block with its panic in place: the new bitmap, blocks and records and the result are those of the specification function the lemmas of FsBlocks and FsFiles are about |
| FsCode.FileSystem.AllocBlock | JOS-with-file-system/fs/fs.c:56-80 | alloc_block with its search loop in place: the new bitmap, blocks and records and the result are those of the specification function the lemmas of FsBlocks and FsFiles are about |
| FsCode.FileSystem.FileBlockWalk | JOS-with-file-system/fs/fs.c:149-204 | file_block_walk in place: the new bitmap, blocks and records and the result are those of the specification function the lemmas of FsBlocks and FsFiles are about |
| FsCode.FileSystem.FileGetBlock | JOS-with-file-system/fs/fs.c:213-250 | file_get_block in place: the new bitmap, blocks and records and the result are those of the specification function the lemmas of FsBlocks and FsFiles are about |
| FsCode.FileSystem.FileReadAt | JOS-with-file-system/fs/fs.c:413-436 | file_read in place: the new bitmap, blocks and records and the result are those of the specification function the lemmas of FsBlocks and FsFiles are about |
| FsCode.FileSystem.ReadAll | JOS-with-file-system/fs/fs.c:425-433 | the loop of file_read in place: the new bitmap, blocks and records and the result are those of the specification function the lemmas of FsBlocks and FsFiles are about |
| FsCode.FileSystem.FileWriteAt | JOS-with-file-system/fs/fs.c:442-464 | file_write in place: the new bitmap, blocks and records and the result are those of the specification function the lemmas of FsBlocks and FsFiles are about |
| FsCode.FileSystem.WriteAll | JOS-with-file-system/fs/fs.c:454-462 | the loop of file_write in place: the new bitmap, blocks and records and the result are those of the specification function the lemmas of FsBlocks and FsFiles are about |
| FsCode.FileSystem.FileFreeBlock | JOS-with-file-system/fs/fs.c:468-481 | file_free_block in place: the new bitmap, blocks and records and the result are those of the specification function the lemmas of FsBlocks and FsFiles are about |
| FsCode.FileSystem.FileTruncateBlocks | JOS-with-file-system/fs/fs.c:492-508 | file_truncate_blocks with its loop in place: the new bitmap, blocks and records and the result are those of the specification function the lemmas of FsBlocks and FsFiles are about |
| FsCode.FileSystem.FileSetSize | JOS-with-file-system/fs/fs.c:511-519 | file_set_size in place: the new bitmap, blocks and records and the result are those of the specification function the lemmas of FsBlocks and FsFiles are about |
| BlockCache.FaultSpec | JOS-with-file-system/fs/bc.c:30-71 | A fault on an absent block changes no view whatever the new frame held, and panics exactly when the block is beyond the disk or marked free |
| BlockCache.FlushSpec | JOS-with-file-system/fs/bc.c:79-104 | flush_block changes no view and leaves disk and view of the block equal |
| BlockCache.SyncIsDurable | JOS-with-file-system/fs/fs.c:561-567 | After fs_sync disk[b] equals view[b] for all 1 <= b < nblocks, so losing all memory changes none of these views |
| BlockCache.RunIsFlat | JOS-with-file-system/fs/bc.c:30-104 | Any run of loads, stores, flushes, syncs and bitmap changes that does not panic shows the flat array its stores describe |
| BlockCache.CrashAfterSync | JOS-with-file-system/fs/fs.c:561-567 | The same after a final sync and a crash |
| BlockCache.PanicsIff | JOS-with-file-system/fs/bc.c:30-71 | An operation panics if and only if its block is beyond the disk, or is absent and marked free |
| BlockCache.NeverPanics | JOS-with-file-system/fs/bc.c:30-71 | A run over blocks on the disk and marked in use never panics |
| BlockCache.BlockServer.BcPgfault | JOS-with-file-system/fs/bc.c:30-71 | The three system calls in order leave that state |
| BlockCache.BlockServer.FlushBlock | JOS-with-file-system/fs/bc.c:79-104 | Write-back and clearing the dirty bit |
| BlockCache.BlockServer.FsSync | JOS-with-file-system/fs/fs.c:561-567 | The loop leaves every block but block 0 equal on disk |
| E1000Rx.ReceivedInOrder | JOS-with-network/kern/e1000.c:108-145 | For every interleaving of driver statements and arrivals, packets delivered are a prefix of packets written, the waiting ones lie intact in the ring, and the end-of-packet panic is never reached |
| E1000Rx.NeverTouchesDeviceDescriptor | JOS-with-network/kern/e1000.c:117-139 | Every descriptor access after the DD test goes to a descriptor outside the device's circular range [RDH, RDT) |
| E1000Rx.PollIsExact | JOS-with-network/kern/e1000.c:117-126 | "No packet" is answered exactly when all written packets were received; the device can take a packet exactly when fewer than 63 are waiting |
| E1000Rx.InitInv | JOS-with-network/kern/e1000.c:165-166 | RDH = 1, RDT = 0 and empty descriptors satisfy the invariant |
| E1000Rx.InvStep | JOS-with-network/kern/e1000.c:108-145 | Each driver statement and each arrival keeps the ring invariant |
| E1000Rx.Receiver.Poll | JOS-with-network/kern/e1000.c:117-126 | Advances the tail and tests DD; gives up only if nothing was waiting |
| E1000Rx.Receiver.CopyOut | JOS-with-network/kern/e1000.c:127-132 | Copies out the oldest packet not yet received, the device running between the statements |
| E1000Rx.Receiver.Drain | JOS-with-network/kern/e1000.c:127-139 | The same, with the descriptor given back |
| E1000Rx.Receiver.GiveBack | JOS-with-network/kern/e1000.c:135-139 | Clearing the status before moving RDT keeps the ring |
| E1000Rx.Receiver.PciReceivePacket | JOS-with-network/kern/e1000.c:108-145 | Returns the next packet the device wrote; fails only if none was waiting |
| E1000Tx.SentInOrder | JOS-with-network/kern/e1000.c:69-106 | For every interleaving, packets sent are a prefix of packets accepted, and every pending one lies unmodified in its buffer |
| E1000Tx.DeviceProgressIff | JOS-with-network/kern/e1000.c:83-102 | The device can send exactly when between 1 and 63 packets are pending |
| E1000Tx.FullRingIsStuck | JOS-with-network/kern/e1000.c:83-102 | With 64 pending TDH equals TDT: nothing is ever sent or accepted again |
| E1000Tx.FullRingReached | JOS-with-network/kern/e1000.c:69-106 | That state is reached from the initial one by 64 calls during which the device sends nothing |
| E1000Tx.InitInv | JOS-with-network/kern/e1000.c:155-156 | TDH = TDT = 0 and all descriptors done satisfy the invariant |
| E1000Tx.InvStep | JOS-with-network/kern/e1000.c:69-106 | Each driver statement and each transmission keeps the ring invariant |
| E1000Tx.Transmitter.Poll | JOS-with-network/kern/e1000.c:83-88 | Tests the descriptor at the tail |
| E1000Tx.Transmitter.Fill | JOS-with-network/kern/e1000.c:90-94 | Copies the packet into a buffer the device does not own |
| E1000Tx.Transmitter.HandOver | JOS-with-network/kern/e1000.c:98-102 | Clearing DD before moving TDT hands the packet over |
| E1000Tx.Transmitter.PciTransmitPacket | JOS-with-network/kern/e1000.c:69-106 | Accepts the packet exactly when it fits and fewer than 64 were pending at the call |
| Leb128.UnsignedRoundTrip | JOS-with-file-system/kern/libdwarf_rw.c:196-213 | For every v and whatever undefined shifts give, the unsigned decoder consumes exactly the encoded bytes; while these are at most five it returns v if and only if v < 2^31 |
| Leb128.SignedRoundTrip | JOS-with-file-system/kern/libdwarf_rw.c:173-193 | The same for the signed decoder, which returns v if and only if -2^31 <= v < 2^31, the fifth shift wrapping |
| Leb128.FourBytes | JOS-with-file-system/kern/libdwarf_rw.c:173-193 | The encoding stays within four bytes, so that no shift leaves the int, exactly for -2^27 <= v < 2^27 |
| Leb128.UnsignedOfEncoding | JOS-with-file-system/kern/libdwarf_rw.c:196-213 | What the unsigned loop computes from any number of bytes on: the 32-bit wrapped value, sign-extended |
| Leb128.SignedOfEncoding | JOS-with-file-system/kern/libdwarf_rw.c:173-193 | The same for the signed loop and its final fill |
| Leb128.OrAdds | JOS-with-file-system/kern/libdwarf_rw.c:208 | Words without a common bit are or'ed by adding |
| Leb128.ReadUleb128 | JOS-with-file-system/kern/libdwarf_rw.c:196-213 | The offset form computes the specification value of an encoding of any length and moves the offset past it |
| Leb128.ReadSleb128 | JOS-with-file-system/kern/libdwarf_rw.c:173-193 | The same, signed |
| Leb128.DecodeUleb128 | JOS-with-file-system/kern/libdwarf_rw.c:239-257 | The pointer form computes the same value from the same bytes and leaves the bytes after the encoding |
| Leb128.DecodeSleb128 | JOS-with-file-system/kern/libdwarf_rw.c:216-236 | The same, signed |
| Cfa.AgreeIffServes | JOS-with-file-system/kern/libdwarf_frame.c:79-371 | For every program: interpreter and row machine, which has a stack of remembered rows and fixed initial rules, agree after each instruction if and only if the one shadow table holds, at each restore executed, the initial rule, and at each restore_state, the row remembered last |
| Cfa.SimpleIsServed | JOS-with-file-system/kern/libdwarf_frame.c:79-371 | It does for programs without nested remember_state and without restore after it |
| Cfa.RunRefines | JOS-with-file-system/kern/libdwarf_frame.c:110-371 | A readable program the standard allows, whose shadow serves, ends without error, and its table reads as the row of exactly the instructions before the first advance past pc_req |
| Cfa.TableRefines | JOS-with-file-system/kern/libdwarf_frame.c:373-421 | The table returned for pc_req reads as the rules of the standard: all of the CIE, then the FDE to the first location past pc_req, with signed factored offsets and locations as plain sums, while these fit 64 bits |
| Cfa.FitsMeansSums | JOS-with-file-system/kern/libdwarf_frame.c:150-159 | While every location reached is below 2^64 the interpreter's locations are the plain sums of the advances, and it stops where the sum passes pc_req |
| Cfa.TableIsRow | JOS-with-file-system/kern/libdwarf_frame.c:373-421 | When the shadow serves, the table returned for pc_req is the CIE's rows followed by the FDE's instructions before the first advance past pc_req, and errors are reported exactly when the row machine has none |
| Cfa.EffectReads | JOS-with-file-system/kern/libdwarf_frame.c:160-355 | Each rule instruction changes the column, or the CFA, that section 6.4.2 of DWARF Version 3 says, to the rule it says with signed offset u * daf, exactly when the old rule is no expression and register numbers and offset fit |
| Cfa.RunReads | JOS-with-file-system/kern/libdwarf_frame.c:110-371 | Over a whole program the records read as the rules of the standard |
| Cfa.RowPcBound | JOS-with-file-system/kern/libdwarf_frame.c:391-415 | row_pc <= pc_req |
| Cfa.RowPcOfRun | JOS-with-file-system/kern/libdwarf_frame.c:110-371 | After a run row_pc is the location of the last rule or restore_state instruction executed, same_value apart, or the location the run started with |
| Cfa.RowPcIsRowStart | JOS-with-file-system/kern/libdwarf_frame.c:373-421 | So the row a caller gets starts where its FDE last changed a rule, or at the initial location |
| CfaCode.FrameReader.CopyToShadow | JOS-with-file-system/kern/libdwarf_frame.c:79-107 | the table copied to the one shadow: in place, the result is that of the function the lemmas of Cfa are about |
| CfaCode.FrameReader.CopyFromShadow | JOS-with-file-system/kern/libdwarf_frame.c:79-107 | and back: in place, the result is that of the function the lemmas of Cfa are about |
| CfaCode.FrameReader.Apply | JOS-with-file-system/kern/libdwarf_frame.c:160-355 | the assignments of one rule instruction: in place, the result is that of the function the lemmas of Cfa are about |
| CfaCode.FrameReader.CheckAndApply | JOS-with-file-system/kern/libdwarf_frame.c:126-136 | the table-size check: in place, the result is that of the function the lemmas of Cfa are about |
| CfaCode.FrameReader.Execute | JOS-with-file-system/kern/libdwarf_frame.c:145-364 | one turn of the loop: in place, the result is that of the function the lemmas of Cfa are about |
| CfaCode.FrameReader.RunInst | JOS-with-file-system/kern/libdwarf_frame.c:110-371 | the whole loop: in place, the result is that of the function the lemmas of Cfa are about |
| CfaCode.FrameReader.GetInternalTable | JOS-with-file-system/kern/libdwarf_frame.c:373-421 | initial rules, CIE, FDE: in place, the result is that of the function the lemmas of Cfa are about |

## Left out

- The visiting order of `fork` over its own address space, and its skips at `lib/fork.c:152-162`: the pages given to `duppage` are any set, in any order, each at most once. That every mapped page is visited is not claimed.
- The copy of the user stack and the exception stack at the end of `fork` (`lib/fork.c:167-177`), and `copy_shared_pages` in `lib/spawn.c`, which maps Fd pages before data pages.
- Memory exhaustion inside `fork` and its handler: the system calls there succeed. In `kern/pmap.c` exhaustion is modelled; that `sys_page_alloc` does not free its page when `page_insert` fails is not.
- TLB contents: `tlb_invalidate` does nothing.
- Kernel mappings above UTOP, the self-map entry, `boot_map_region` and `page_init`'s layout: the tables hold only what `page_insert` puts there.
- Null arguments of the page-table calls, for which they return at once.
- Reclamation of an address space in `env_free`: only its status and free-list part is modelled.
- PmapRuns.RunRefinesMap: runs hold `page_decref` only inside the calls that use it, and every inserted page has fewer than 65535 references, since `pp_ref` has 16 bits.
- PipeClose.ClosedIsNeverFalse: one CPU, and `env_runs` does not wrap between its two readings.
- PipeFifo.Fifo: one reader and one writer at a time, and fewer than 2^31 bytes in all, the range of the positions.
- PipeJoint.EndOfFileIsReal: the assumptions of PipeClose.ClosedIsNeverFalse and PipeFifo.Fifo; a destroyed environment's byte that it had taken and not counted is taken again by the next reader.
- PipeCode.PipePage.DevpipeRead: the source waits without bound; here each `sys_yield` uses up a turn, and a call without turns left is reported as still waiting.
- PipeCode.PipePage.DevpipeWrite: the same bound on waiting; the other end is not destroyed in the middle of its own call, which PipeFifo and PipeJoint allow.
- CowFork.UserMemory.SysPageMap: the checks of environment ids, addresses and permission bits at `kern/syscall.c:274-293` are not modelled.
- KernelCode.KernelState.SysIpcTrySend: the checks on the sent page are one input, and the page is not mapped.
- KernelCode.KernelState.SysIpcRecv: `env_ipc_dstva` is not modelled, and whether it is aligned is one input.
- IPC page transfer: the checks on the sent page are one input, and `env_ipc_dstva` and `env_ipc_perm` are not modelled.
- Kernel.BoundedWaiting: counts choices of the scheduler, not time; the timer is an input.
- Trap frames, system calls that touch no scheduling state, and the kernel monitor, in which a CPU keeps the lock for ever.
- Directories, path lookup and file creation; the set of files is given. A `struct File` is a record of its own, not bytes of a directory block.
- The bitmap as packed 32-bit words: one boolean per block stands for each bit.
- Negative offsets and sizes in the file server, and offsets from 2^31 on.
- FsFiles.FileReadSpec: assumes that a fresh indirect block, if the read of a hole takes one, reads as zero; FsExact.FileReadExact shows that ownership survives in no other case.
- FsFiles.FileWriteSpec: the same assumption; after a failed write it says nothing about which bytes of the request were stored.
- FsFiles.ReadBack: the same assumption on the write.
- FsSpace.FileWriteOutcome: the same assumption.
- FsSpace.FileReadOutcome: the same assumption.
- FsExact.FileWriteExact: says nothing of a write through a slot in which the uncleared indirect block holds its own number; FsExact.SelfNamedIndirect shows that it can keep ownership and lose its bytes.
- When the bitmap reaches the disk: `alloc_block` flushes only the first bitmap block. The models of files and of the cache are separate.
- IDE and page-allocation failures in `fs/bc.c`, which panic.
- The E1000's registers other than head and tail; packets longer than a buffer; the end-of-packet bit is always set by the device.
- Leb128.UnsignedRoundTrip: the value decoded from more than five bytes, which depends on shifts C does not define.
- Leb128.SignedRoundTrip: the same.
- Decoding of call-frame instructions from bytes: the interpreter is given decoded operands. CIE and FDE parsing, `.eh_frame` lookup and the other DWARF readers are not modelled.
- Cfa.RunRefines: programs whose shadow table does not serve, for which Cfa.AgreeIffServes shows that code and standard part, and programs with unreadable rules, for which see Cfa.EffectReads.
- Cfa.TableRefines: the same; and locations that pass 2^64, where the interpreter wraps.
- Boot, drivers other than the E1000 rings, the console, the shell, user programs.
