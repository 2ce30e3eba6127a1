// Environments on several CPUs (kern/env.c, sched.c, trap.c, syscall.c).
//
// A kernel entry runs under the big kernel lock from lock_kernel() to unlock_kernel(), so each is
// one transition.  The functions below are the kernel's routines on the state it keeps.
module Kernel {
  import opened EnvIds
  import opened Wrappers

  datatype Status = Free | Dying | Runnable | Running | NotRunnable

  datatype Msg = Msg(from: int, value: nat)

  // inbox and recvs record, since the slot was allocated, the successful sends to it and its
  // sys_ipc_recv calls; allocs counts the allocations of the slot.
  datatype Env = Env(
    status: Status, id: int, parent: int, runs: nat, link: Option<nat>,
    recving: bool, ipc: Msg,
    inbox: seq<Msg>, recvs: nat, allocs: nat)

  datatype Kern = Kern(
    envs: seq<Env>,
    free: Option<nat>,        // env_free_list
    curenv: seq<Option<nat>>, // one per CPU
    counter: nat,             // sched_yield's env_counter
    choices: seq<nat>,        // every slot the search of sched_yield has picked
    monitor: bool             // some CPU sits in the kernel monitor and keeps the lock
  )

  predicate Wf(k: Kern) {
    && |k.envs| == NENV && k.counter < NENV
    && (forall c :: 0 <= c < |k.curenv| && k.curenv[c].Some? ==> k.curenv[c].value < NENV)
    && (k.free.Some? ==> k.free.value < NENV)
    && (forall e :: 0 <= e < NENV && k.envs[e].link.Some? ==> k.envs[e].link.value < NENV)
  }

  // ------------------------------------------------------------------
  // Scheduler
  // ------------------------------------------------------------------

  // Stop running whatever the CPU runs, if that still counts as running.
  function Deschedule(k: Kern, c: nat): seq<Env>
    requires Wf(k) && c < |k.curenv|
  {
    match k.curenv[c]
    case Some(o) =>
      if k.envs[o].status.Running? then k.envs[o := k.envs[o].(status := Runnable)] else k.envs
    case None => k.envs
  }

  function EnvRun(k: Kern, c: nat, e: nat): (r: Kern)
    requires Wf(k) && c < |k.curenv| && e < NENV
    ensures Wf(r) && |r.curenv| == |k.curenv|
  {
    if k.curenv[c] == Some(e) then
      k.(envs := k.envs[e := k.envs[e].(runs := k.envs[e].runs + 1)])
    else
      var envs := Deschedule(k, c);
      k.(envs := envs[e := envs[e].(status := Running, runs := envs[e].runs + 1)],
         curenv := k.curenv[c := Some(e)])
  }

  // The first runnable slot among counter + i, counter + i + 1, ..., counter + NENV.
  function Search(envs: seq<Env>, counter: nat, i: nat): (r: Option<nat>)
    requires |envs| == NENV
    ensures r.Some? ==> r.value < NENV
    decreases NENV + 1 - i
  {
    if i > NENV then None
    else if envs[(counter + i) % NENV].status.Runnable? then Some((counter + i) % NENV)
    else Search(envs, counter, i + 1)
  }

  function Chosen(k: Kern): Option<nat>
    requires Wf(k)
  {
    Search(k.envs, k.counter, 1)
  }

  // The search has picked e.
  function Picked(k: Kern, e: nat): (r: Kern)
    requires Wf(k) && e < NENV
    ensures Wf(r)
  {
    k.(counter := e, choices := k.choices + [e])
  }

  predicate Live(e: Env) {
    e.status.Runnable? || e.status.Running? || e.status.Dying?
  }

  function SchedHalt(k: Kern, c: nat): (r: Kern)
    requires Wf(k) && c < |k.curenv|
    ensures Wf(r) && |r.curenv| == |k.curenv|
  {
    if forall e :: 0 <= e < NENV ==> !Live(k.envs[e]) then k.(monitor := true)
    else k.(curenv := k.curenv[c := None])
  }

  function SchedYield(k: Kern, c: nat): (r: Kern)
    requires Wf(k) && c < |k.curenv|
    ensures Wf(r) && |r.curenv| == |k.curenv|
  {
    match Chosen(k)
    case Some(e) => EnvRun(Picked(k, e), c, e)
    case None =>
      if k.curenv[c].Some? && k.envs[k.curenv[c].value].status.Running? then EnvRun(k, c, k.curenv[c].value)
      else SchedHalt(k, c)
  }

  // ------------------------------------------------------------------
  // Life cycle
  // ------------------------------------------------------------------

  // The status and free-list part of env_free.
  function EnvFree(k: Kern, e: nat): (r: Kern)
    requires Wf(k) && e < NENV
    ensures Wf(r) && |r.curenv| == |k.curenv|
  {
    k.(envs := k.envs[e := k.envs[e].(status := Free, link := k.free)], free := Some(e))
  }

  // Returns whether control comes back to the caller.
  function EnvDestroy(k: Kern, c: nat, e: nat): (r: (Kern, bool))
    requires Wf(k) && c < |k.curenv| && e < NENV
    ensures Wf(r.0) && |r.0.curenv| == |k.curenv|
  {
    if k.envs[e].status.Running? && k.curenv[c] != Some(e) then
      (k.(envs := k.envs[e := k.envs[e].(status := Dying)]), true)
    else if k.curenv[c] == Some(e) then
      (SchedYield(EnvFree(k, e).(curenv := k.curenv[c := None]), c), false)
    else (EnvFree(k, e), true)
  }

  // env_alloc, when memory for the page directory is available.
  function EnvAlloc(k: Kern, parent: int, status: Status): (r: Kern)
    requires Wf(k) && k.free.Some?
    ensures Wf(r) && |r.curenv| == |k.curenv|
  {
    var e := k.free.value;
    var was := k.envs[e];
    k.(envs := k.envs[e := Env(status, NextId(was.id, e), parent, 0, was.link, false, was.ipc, [], 0, was.allocs + 1)],
       free := was.link)
  }

  // envid2env for CPU c.
  function Envid2env(k: Kern, c: nat, id: int, checkperm: bool): Option<nat>
    requires Wf(k) && c < |k.curenv|
  {
    if id == 0 then k.curenv[c]
    else
      var e := Envx(id);
      if k.envs[e].status.Free? || k.envs[e].id != id then None
      else if checkperm && k.curenv[c] != Some(e)
              && (k.curenv[c].None? || k.envs[e].parent != k.envs[k.curenv[c].value].id) then None
      else Some(e)
  }

  // ------------------------------------------------------------------
  // IPC
  // ------------------------------------------------------------------

  function IpcDeliver(k: Kern, e: nat, m: Msg): (r: Kern)
    requires Wf(k) && e < NENV
    ensures Wf(r) && |r.curenv| == |k.curenv|
  {
    k.(envs := k.envs[e := k.envs[e].(recving := false, ipc := m, status := Runnable, inbox := k.envs[e].inbox + [m])])
  }

  // Whether sys_ipc_try_send passes its checks; pageOk stands for those on the sent page.
  predicate IpcAccepts(k: Kern, c: nat, id: int, pageOk: bool)
    requires Wf(k) && c < |k.curenv|
  {
    var d := Envid2env(k, c, id, false);
    d.Some? && k.envs[d.value].recving && pageOk
  }

  // The current environment marks itself as receiving.
  function Blocked(k: Kern, c: nat): (r: Kern)
    requires Wf(k) && c < |k.curenv| && k.curenv[c].Some?
    ensures Wf(r) && r.curenv == k.curenv
  {
    var e := k.curenv[c].value;
    k.(envs := k.envs[e := k.envs[e].(recving := true, status := NotRunnable, recvs := k.envs[e].recvs + 1)])
  }

  function IpcRecv(k: Kern, c: nat): (r: Kern)
    requires Wf(k) && c < |k.curenv| && k.curenv[c].Some?
    ensures Wf(r) && |r.curenv| == |k.curenv|
  {
    SchedYield(Blocked(k, c), c)
  }

  // ------------------------------------------------------------------
  // Kernel entries
  // ------------------------------------------------------------------

  datatype Cause =
    | Timer                                             // also sys_yield and device interrupts
    | Quick                                             // system calls that touch none of this state
    | Upcall                                            // page fault with a handler installed
    | Crash                                             // fault without a handler, unexpected trap
    | Exofork(memory: bool)
    | Destroy(id: int)
    | SetStatus(id: int, status: Status)
    | Send(id: int, value: nat, pageOk: bool)
    | Recv(aligned: bool)

  // The end of trap(): back to the current environment if it still runs.
  function TrapReturn(k: Kern, c: nat): (r: Kern)
    requires Wf(k) && c < |k.curenv|
    ensures Wf(r) && |r.curenv| == |k.curenv|
  {
    if k.curenv[c].Some? && k.envs[k.curenv[c].value].status.Running? then EnvRun(k, c, k.curenv[c].value)
    else SchedYield(k, c)
  }

  // What the system call leaves behind before trap() returns; false when it never returns.
  function Syscall(k: Kern, c: nat, cause: Cause): (r: (Kern, bool))
    requires Wf(k) && c < |k.curenv| && k.curenv[c].Some?
    ensures Wf(r.0) && |r.0.curenv| == |k.curenv|
  {
    var cur := k.curenv[c].value;
    match cause
    case Timer => (SchedYield(k, c), false)
    case Quick => (k, true)
    case Upcall => (EnvRun(k, c, cur), false)
    case Crash => EnvDestroy(k, c, cur)
    case Exofork(memory) =>
      if memory && k.free.Some? then (EnvAlloc(k, k.envs[cur].id, NotRunnable), true) else (k, true)
    case Destroy(id) =>
      var t := Envid2env(k, c, id, true);
      if t.Some? then EnvDestroy(k, c, t.value) else (k, true)
    case SetStatus(id, status) =>
      var t := Envid2env(k, c, id, true);
      (if t.Some? then k.(envs := k.envs[t.value := k.envs[t.value].(status := status)]) else k, true)
    case Send(id, value, pageOk) =>
      if IpcAccepts(k, c, id, pageOk) then
        (IpcDeliver(k, Envid2env(k, c, id, false).value, Msg(k.envs[cur].id, value)), true)
      else (k, true)
    case Recv(aligned) => if aligned then (IpcRecv(k, c), false) else (k, true)
  }

  // trap(): zombie collection, dispatch, return.  An idle CPU is woken by the timer.
  function Trap(k: Kern, c: nat, cause: Cause): (r: Kern)
    requires Wf(k) && c < |k.curenv|
    ensures Wf(r) && |r.curenv| == |k.curenv|
  {
    match k.curenv[c]
    case None => SchedYield(k, c)
    case Some(cur) =>
      if k.envs[cur].status.Dying? then
        SchedYield(EnvFree(k, cur).(curenv := k.curenv[c := None]), c)
      else
        var (k', back) := Syscall(k, c, cause);
        if back then TrapReturn(k', c) else k'
  }

  // ------------------------------------------------------------------
  // Invariant
  // ------------------------------------------------------------------

  predicate OnCpu(s: Status) {
    s.Running? || s.Dying?
  }

  // curenv of each CPU names a running or dying environment, each of which is on exactly one CPU.
  ghost predicate OneCpu(k: Kern)
    requires Wf(k)
  {
    && (forall c :: 0 <= c < |k.curenv| && k.curenv[c].Some? ==> OnCpu(k.envs[k.curenv[c].value].status))
    && (forall c, d :: 0 <= c < |k.curenv| && 0 <= d < |k.curenv| && c != d && k.curenv[c].Some? ==>
          k.curenv[c] != k.curenv[d])
    && (forall e :: 0 <= e < NENV && OnCpu(k.envs[e].status) ==>
          exists c :: 0 <= c < |k.curenv| && k.curenv[c] == Some(e))
  }

  predicate EnvOk(e: Env, slot: nat)
    requires slot < NENV
  {
    && e.id == IdAfter(e.allocs, slot)
    && (!e.status.Free? ==> 1 <= e.allocs)
    && (e.recving ==> e.status.NotRunnable? || e.status.Free?)
    && (!e.status.Free? ==> |e.inbox| + (if e.recving then 1 else 0) == e.recvs)
    && (!e.status.Free? && e.inbox != [] ==> e.ipc == e.inbox[|e.inbox| - 1])
  }

  ghost predicate EnvsOk(k: Kern)
    requires Wf(k)
  {
    forall e :: 0 <= e < NENV ==> EnvOk(k.envs[e], e)
  }

  // env_link of the i-th free slot leads to the next one.
  predicate LinkOk(k: Kern, chain: seq<nat>, i: nat)
    requires Wf(k) && i < |chain| && chain[i] < NENV
  {
    k.envs[chain[i]].link == if i + 1 < |chain| then Some(chain[i + 1]) else None
  }

  // chain is the free list, in order.
  ghost predicate FreeChain(k: Kern, chain: seq<nat>)
    requires Wf(k)
  {
    && (forall i :: 0 <= i < |chain| ==> chain[i] < NENV)
    && (forall i, j :: 0 <= i < j < |chain| ==> chain[i] != chain[j])
    && (forall e :: 0 <= e < NENV ==> (k.envs[e].status.Free? <==> e in chain))
    && k.free == (if chain == [] then None else Some(chain[0]))
    && (forall i :: 0 <= i < |chain| ==> LinkOk(k, chain, i))
  }

  ghost predicate FreeListOk(k: Kern)
    requires Wf(k)
  {
    exists chain :: FreeChain(k, chain)
  }

  // Holds whenever the kernel lock is free.
  ghost predicate Inv(k: Kern) {
    Wf(k) && OneCpu(k) && EnvsOk(k) && FreeListOk(k)
  }

  // ------------------------------------------------------------------
  // The scheduler keeps it
  // ------------------------------------------------------------------

  // Inside a kernel entry of CPU c its own curenv may already have given up running.
  ghost predicate OneCpuBut(k: Kern, c: nat)
    requires Wf(k)
  {
    && (forall d :: 0 <= d < |k.curenv| && d != c && k.curenv[d].Some? ==> OnCpu(k.envs[k.curenv[d].value].status))
    && (forall d, d' :: 0 <= d < |k.curenv| && 0 <= d' < |k.curenv| && d != d' && k.curenv[d].Some? ==>
          k.curenv[d] != k.curenv[d'])
    && (forall e :: 0 <= e < NENV && OnCpu(k.envs[e].status) ==>
          exists d :: 0 <= d < |k.curenv| && k.curenv[d] == Some(e))
  }

  ghost predicate MidEntry(k: Kern, c: nat) {
    && Wf(k) && c < |k.curenv| && OneCpuBut(k, c) && EnvsOk(k) && FreeListOk(k)
    && (k.curenv[c].Some? ==>
          var s := k.envs[k.curenv[c].value].status; s.Running? || s.NotRunnable?)
  }

  lemma FreeListSame(k: Kern, k': Kern)
    requires Wf(k) && Wf(k') && FreeListOk(k) && k'.free == k.free
    requires forall e :: 0 <= e < NENV ==>
      (k'.envs[e].status.Free? <==> k.envs[e].status.Free?) && k'.envs[e].link == k.envs[e].link
    ensures FreeListOk(k')
  {
    var chain :| FreeChain(k, chain);
    forall i | 0 <= i < |chain|
      ensures LinkOk(k', chain, i)
    {
      assert LinkOk(k, chain, i);
    }
    assert FreeChain(k', chain);
  }

  lemma EnvRunInv(k: Kern, c: nat, e: nat)
    requires MidEntry(k, c) && e < NENV
    requires k.envs[e].status.Runnable? || (k.curenv[c] == Some(e) && k.envs[e].status.Running?)
    ensures Inv(EnvRun(k, c, e))
  {
    hide OneCpu, OneCpuBut;
    var k' := EnvRun(k, c, e);
    EnvRunOneCpu(k, c, e);
    FreeListSame(k, k');
    EnvsRescheduled(k, k');
  }

  // Status changes between runnable and running, and the run counter, leave the records sound.
  lemma EnvsRescheduled(k: Kern, k': Kern)
    requires Wf(k) && Wf(k') && EnvsOk(k)
    requires forall x :: 0 <= x < NENV ==>
      var e, e' := k.envs[x], k'.envs[x];
      e' == e.(status := e'.status, runs := e'.runs)
      && (e'.status == e.status || (!e.status.Free? && !e.status.NotRunnable? && !e'.status.Free?))
    ensures EnvsOk(k')
  {
    forall x | 0 <= x < NENV
      ensures EnvOk(k'.envs[x], x)
    {
      assert EnvOk(k.envs[x], x);
    }
  }

  lemma EnvRunOneCpu(k: Kern, c: nat, e: nat)
    requires MidEntry(k, c) && e < NENV
    requires k.envs[e].status.Runnable? || (k.curenv[c] == Some(e) && k.envs[e].status.Running?)
    ensures Wf(EnvRun(k, c, e)) && OneCpu(EnvRun(k, c, e))
  {
    var k' := EnvRun(k, c, e);
    forall x | 0 <= x < NENV && OnCpu(k'.envs[x].status)
      ensures exists d :: 0 <= d < |k'.curenv| && k'.curenv[d] == Some(x)
    {
      if x == e {
        assert k'.curenv[c] == Some(x);
      } else {
        var d :| 0 <= d < |k.curenv| && k.curenv[d] == Some(x);
        assert d != c;
        assert k'.curenv[d] == Some(x);
      }
    }
  }

  lemma SchedHaltInv(k: Kern, c: nat)
    requires MidEntry(k, c)
    requires k.curenv[c].Some? ==> !k.envs[k.curenv[c].value].status.Running?
    ensures SchedHalt(k, c).monitor || Inv(SchedHalt(k, c))
  {
    var k' := SchedHalt(k, c);
    if !k'.monitor {
      FreeListSame(k, k');
      forall x | 0 <= x < NENV && OnCpu(k'.envs[x].status)
        ensures exists d :: 0 <= d < |k'.curenv| && k'.curenv[d] == Some(x)
      {
        var d :| 0 <= d < |k.curenv| && k.curenv[d] == Some(x);
        assert k'.curenv[d] == Some(x);
      }
    }
  }

  // How far the round-robin search has to go from counter to x.
  function Dist(counter: nat, x: nat): (d: nat)
    requires counter < NENV && x < NENV
    ensures 1 <= d <= NENV && (counter + d) % NENV == x
  {
    (x + NENV - counter - 1) % NENV + 1
  }

  lemma DistUnique(counter: nat, x: nat, i: nat)
    requires counter < NENV && x < NENV && 1 <= i <= NENV && (counter + i) % NENV == x
    ensures i == Dist(counter, x)
  {
  }

  // The search finds the nearest runnable slot.
  lemma {:induction false} SearchIsNearest(envs: seq<Env>, counter: nat, i: nat)
    requires |envs| == NENV && counter < NENV && 1 <= i <= NENV + 1
    ensures var r := Search(envs, counter, i);
      && (r.None? ==> forall x :: 0 <= x < NENV && i <= Dist(counter, x) ==> !envs[x].status.Runnable?)
      && (r.Some? ==> envs[r.value].status.Runnable? && i <= Dist(counter, r.value)
                      && forall x :: 0 <= x < NENV && i <= Dist(counter, x) < Dist(counter, r.value) ==>
                           !envs[x].status.Runnable?)
    decreases NENV + 1 - i
  {
    if i <= NENV {
      var x := (counter + i) % NENV;
      DistUnique(counter, x, i);
      if !envs[x].status.Runnable? {
        SearchIsNearest(envs, counter, i + 1);
        forall y | 0 <= y < NENV && Dist(counter, y) == i
          ensures y == x
        {
        }
      }
    }
  }

  lemma ChosenIsRunnable(k: Kern)
    requires Wf(k)
    ensures match Chosen(k)
            case Some(e) => e < NENV && k.envs[e].status.Runnable?
            case None => forall x :: 0 <= x < NENV ==> !k.envs[x].status.Runnable?
  {
    SearchIsNearest(k.envs, k.counter, 1);
  }

  lemma PickedMid(k: Kern, c: nat, e: nat)
    requires MidEntry(k, c) && e < NENV
    ensures MidEntry(Picked(k, e), c)
  {
    FreeListSame(k, Picked(k, e));
  }

  lemma SchedYieldInv(k: Kern, c: nat)
    requires MidEntry(k, c)
    ensures SchedYield(k, c).monitor || Inv(SchedYield(k, c))
  {
    ChosenIsRunnable(k);
    match Chosen(k)
    case Some(e) =>
      PickedMid(k, c, e);
      EnvRunInv(Picked(k, e), c, e);
    case None =>
      if k.curenv[c].Some? && k.envs[k.curenv[c].value].status.Running? {
        EnvRunInv(k, c, k.curenv[c].value);
      } else {
        SchedHaltInv(k, c);
      }
  }

  // ------------------------------------------------------------------
  // Kernel entries keep it
  // ------------------------------------------------------------------

  // What the rest of the system must respect, of an entry by a running environment: env_destroy is not
  // repeated on a dying environment; sys_env_set_status keeps another environment stopped, or on its
  // CPU, as it is, and does not make a receiver runnable; on the caller itself see SelfSet.
  predicate Allowed(k: Kern, c: nat, cause: Cause)
    requires Wf(k) && c < |k.curenv|
  {
    k.curenv[c].Some? && k.envs[k.curenv[c].value].status.Running? ==>
      match cause
      case Destroy(id) =>
        var t := Envid2env(k, c, id, true);
        t.Some? ==> !k.envs[t.value].status.Dying?
      case SetStatus(id, status) =>
        var t := Envid2env(k, c, id, true);
        t.Some? ==> if t == k.curenv[c] then SelfSet(k, c, status) else MaySet(k.envs[t.value], status)
      case _ => true
  }

  // env_run of the current environment does not set its status, so a caller that makes itself runnable
  // must not be the one the search picks next; one that frees itself must be the last.
  predicate SelfSet(k: Kern, c: nat, status: Status)
    requires Wf(k) && c < |k.curenv| && k.curenv[c].Some?
  {
    var cur := k.curenv[c].value;
    match status
    case Running => true
    case NotRunnable => true
    case Runnable => Chosen(WithStatus(k, cur, Runnable)) != Some(cur)
    case Dying => false
    case Free => forall e :: 0 <= e < NENV && e != cur ==> !Live(k.envs[e])
  }

  predicate SameKind(s: Status, t: Status) {
    (Stopped(s) && Stopped(t)) || (OnCpu(s) && OnCpu(t))
  }

  predicate MaySet(r: Env, status: Status) {
    SameKind(r.status, status) && (r.recving ==> status.NotRunnable?)
  }

  function WithStatus(k: Kern, e: nat, status: Status): (k': Kern)
    requires Wf(k) && e < NENV
    ensures Wf(k')
  {
    k.(envs := k.envs[e := k.envs[e].(status := status)])
  }

  predicate Stopped(s: Status) {
    s.Runnable? || s.NotRunnable?
  }

  lemma EntryIsMid(k: Kern, c: nat)
    requires Inv(k) && c < |k.curenv| && (k.curenv[c].Some? ==> k.envs[k.curenv[c].value].status.Running?)
    ensures MidEntry(k, c)
  {
  }

  lemma TrapReturnInv(k: Kern, c: nat)
    requires MidEntry(k, c)
    ensures TrapReturn(k, c).monitor || Inv(TrapReturn(k, c))
  {
    if k.curenv[c].Some? && k.envs[k.curenv[c].value].status.Running? {
      EnvRunInv(k, c, k.curenv[c].value);
    } else {
      SchedYieldInv(k, c);
    }
  }

  lemma FreePush(k: Kern, e: nat)
    requires Wf(k) && FreeListOk(k) && e < NENV && !k.envs[e].status.Free?
    ensures FreeListOk(EnvFree(k, e))
  {
    var chain :| FreeChain(k, chain);
    var k', longer := EnvFree(k, e), [e] + chain;
    assert e !in chain;
    forall i | 0 <= i < |longer|
      ensures longer[i] < NENV && LinkOk(k', longer, i)
    {
      if i > 0 {
        assert longer[i] == chain[i - 1];
        assert LinkOk(k, chain, i - 1);
      }
    }
    assert FreeChain(k', longer);
  }

  lemma TailMembers(chain: seq<nat>)
    requires chain != [] && forall i, j :: 0 <= i < j < |chain| ==> chain[i] != chain[j]
    ensures chain[0] !in chain[1..]
    ensures forall x :: x in chain <==> x == chain[0] || x in chain[1..]
  {
    assert chain == [chain[0]] + chain[1..];
    assert forall i :: 0 <= i < |chain| - 1 ==> chain[1..][i] == chain[i + 1];
  }

  lemma TailIsLinked(k: Kern, chain: seq<nat>)
    requires Wf(k) && FreeChain(k, chain) && chain != []
    ensures var rest := chain[1..];
      && (forall i :: 0 <= i < |rest| ==> rest[i] < NENV && LinkOk(k, rest, i))
      && (forall i, j :: 0 <= i < j < |rest| ==> rest[i] != rest[j])
  {
    var rest := chain[1..];
    forall i | 0 <= i < |rest|
      ensures rest[i] < NENV && LinkOk(k, rest, i)
    {
      assert LinkOk(k, chain, i + 1);
    }
    assert forall i, j :: 0 <= i < j < |rest| ==> rest[i] == chain[i + 1] && rest[j] == chain[j + 1];
  }

  // The rest of the list after its head was allocated.
  lemma RestIsList(k: Kern, parent: int, status: Status, chain: seq<nat>)
    requires Wf(k) && FreeChain(k, chain) && chain != [] && k.free.Some? && !status.Free?
    ensures FreeChain(EnvAlloc(k, parent, status), chain[1..])
  {
    hide NextId;
    var rest, k' := chain[1..], EnvAlloc(k, parent, status);
    TailMembers(chain);
    TailIsLinked(k, chain);
    assert LinkOk(k, chain, 0);
    forall i | 0 <= i < |rest|
      ensures LinkOk(k', rest, i)
    {
      assert rest[i] in rest && LinkOk(k, rest, i);
    }
  }

  lemma FreePop(k: Kern, parent: int, status: Status)
    requires Wf(k) && FreeListOk(k) && k.free.Some? && !status.Free?
    ensures k.envs[k.free.value].status.Free?
    ensures FreeListOk(EnvAlloc(k, parent, status))
  {
    hide NextId, EnvAlloc;
    var chain :| FreeChain(k, chain);
    RestIsList(k, parent, status, chain);
    assert chain[0] in chain;
  }

  // One record changes and its slot stays off every CPU.
  lemma OffCpuUpdate(k: Kern, c: nat, e: nat, env: Env)
    requires MidEntry(k, c) && e < NENV
    requires !OnCpu(k.envs[e].status) && !OnCpu(env.status) && k.curenv[c] != Some(e)
    requires env.link.Some? ==> env.link.value < NENV
    ensures var k' := k.(envs := k.envs[e := env]); Wf(k') && OneCpuBut(k', c)
  {
  }

  lemma EnvFreeMid(k: Kern, c: nat, e: nat)
    requires MidEntry(k, c) && e < NENV
    requires !k.envs[e].status.Free? && !OnCpu(k.envs[e].status) && k.curenv[c] != Some(e)
    ensures MidEntry(EnvFree(k, e), c)
  {
    var k' := EnvFree(k, e);
    OffCpuUpdate(k, c, e, k'.envs[e]);
    FreePush(k, e);
    assert EnvOk(k.envs[e], e);
    assert forall x :: 0 <= x < NENV && x != e ==> k'.envs[x] == k.envs[x] && EnvOk(k.envs[x], x);
  }

  // The current environment is freed and the CPU is left without one.
  lemma FreeCurrentMid(k: Kern, c: nat)
    requires Inv(k) && c < |k.curenv| && k.curenv[c].Some?
    ensures MidEntry(EnvFree(k, k.curenv[c].value).(curenv := k.curenv[c := None]), c)
  {
    var e := k.curenv[c].value;
    var k1 := EnvFree(k, e);
    var k' := k1.(curenv := k.curenv[c := None]);
    FreePush(k, e);
    FreeListSame(k1, k');
    assert EnvOk(k.envs[e], e);
    assert forall x :: 0 <= x < NENV && x != e ==> k'.envs[x] == k.envs[x] && EnvOk(k.envs[x], x);
    FreeCurrentOneCpu(k, c);
  }

  lemma FreeCurrentOneCpu(k: Kern, c: nat)
    requires Inv(k) && c < |k.curenv| && k.curenv[c].Some?
    ensures var k' := EnvFree(k, k.curenv[c].value).(curenv := k.curenv[c := None]); Wf(k') && OneCpuBut(k', c)
  {
    var e := k.curenv[c].value;
    var k' := EnvFree(k, e).(curenv := k.curenv[c := None]);
    forall x | 0 <= x < NENV && OnCpu(k'.envs[x].status)
      ensures exists d :: 0 <= d < |k'.curenv| && k'.curenv[d] == Some(x)
    {
      var d :| 0 <= d < |k.curenv| && k.curenv[d] == Some(x);
      assert k'.curenv[d] == Some(x);
    }
  }

  lemma MarkDyingMid(k: Kern, c: nat, e: nat)
    requires MidEntry(k, c) && e < NENV && k.envs[e].status.Running? && k.curenv[c] != Some(e)
    ensures MidEntry(WithStatus(k, e, Dying), c)
  {
    var k' := WithStatus(k, e, Dying);
    FreeListSame(k, k');
    EnvsRescheduled(k, k');
    forall x | 0 <= x < NENV && OnCpu(k'.envs[x].status)
      ensures exists d :: 0 <= d < |k'.curenv| && k'.curenv[d] == Some(x)
    {
      assert OnCpu(k.envs[x].status);
    }
  }

  lemma EnvDestroyInv(k: Kern, c: nat, e: nat)
    requires Inv(k) && c < |k.curenv| && e < NENV
    requires k.curenv[c].Some? && k.envs[k.curenv[c].value].status.Running?
    requires !k.envs[e].status.Free? && !k.envs[e].status.Dying?
    ensures var (k', back) := EnvDestroy(k, c, e);
      if back then MidEntry(k', c) else k'.monitor || Inv(k')
  {
    EntryIsMid(k, c);
    hide Inv, MidEntry;
    if k.envs[e].status.Running? && k.curenv[c] != Some(e) {
      MarkDyingMid(k, c, e);
    } else if k.curenv[c] == Some(e) {
      FreeCurrentMid(k, c);
      SchedYieldInv(EnvFree(k, e).(curenv := k.curenv[c := None]), c);
    } else {
      EnvFreeMid(k, c, e);
    }
  }

  lemma ExoforkMid(k: Kern, c: nat, parent: int)
    requires MidEntry(k, c) && k.free.Some?
    ensures MidEntry(EnvAlloc(k, parent, NotRunnable), c)
  {
    FreePop(k, parent, NotRunnable);
    var e, k' := k.free.value, EnvAlloc(k, parent, NotRunnable);
    OffCpuUpdate(k, c, e, k'.envs[e]);
    assert EnvOk(k.envs[e], e);
    assert EnvOk(k'.envs[e], e);
    assert forall x :: 0 <= x < NENV && x != e ==> k'.envs[x] == k.envs[x] && EnvOk(k.envs[x], x);
  }

  lemma DeliverMid(k: Kern, c: nat, e: nat, m: Msg)
    requires MidEntry(k, c) && e < NENV && k.envs[e].recving && !k.envs[e].status.Free?
    requires k.curenv[c] != Some(e)
    ensures MidEntry(IpcDeliver(k, e, m), c)
  {
    var k' := IpcDeliver(k, e, m);
    assert EnvOk(k.envs[e], e);
    OffCpuUpdate(k, c, e, k'.envs[e]);
    FreeListSame(k, k');
    assert forall x :: 0 <= x < NENV && x != e ==> k'.envs[x] == k.envs[x] && EnvOk(k.envs[x], x);
  }

  lemma SetStatusKeeps(k: Kern, e: nat, status: Status)
    requires Inv(k) && e < NENV && !k.envs[e].status.Free? && MaySet(k.envs[e], status)
    ensures Inv(WithStatus(k, e, status))
  {
    var k' := WithStatus(k, e, status);
    assert EnvOk(k.envs[e], e);
    assert forall x :: 0 <= x < NENV && x != e ==> k'.envs[x] == k.envs[x] && EnvOk(k.envs[x], x);
    FreeListSame(k, k');
    assert EnvOk(k'.envs[e], e);
    assert forall x :: 0 <= x < NENV ==> (OnCpu(k'.envs[x].status) <==> OnCpu(k.envs[x].status));
  }

  lemma StoppedOneCpu(k: Kern, c: nat, env: Env)
    requires MidEntry(k, c) && k.curenv[c].Some? && env.status.NotRunnable? && (env.link.Some? ==> env.link.value < NENV)
    ensures var k' := k.(envs := k.envs[k.curenv[c].value := env]); Wf(k') && OneCpuBut(k', c)
  {
    var k' := k.(envs := k.envs[k.curenv[c].value := env]);
    forall x | 0 <= x < NENV && OnCpu(k'.envs[x].status)
      ensures exists d :: 0 <= d < |k'.curenv| && k'.curenv[d] == Some(x)
    {
      assert OnCpu(k.envs[x].status);
    }
  }

  // The caller stops itself.
  lemma SelfStops(k: Kern, c: nat)
    requires Inv(k) && c < |k.curenv| && k.curenv[c].Some? && k.envs[k.curenv[c].value].status.Running?
    ensures MidEntry(WithStatus(k, k.curenv[c].value, NotRunnable), c)
  {
    EntryIsMid(k, c);
    var e, k' := k.curenv[c].value, WithStatus(k, k.curenv[c].value, NotRunnable);
    StoppedOneCpu(k, c, k'.envs[e]);
    assert EnvOk(k.envs[e], e);
    FreeListSame(k, k');
    assert forall x :: 0 <= x < NENV && x != e ==> k'.envs[x] == k.envs[x] && EnvOk(k.envs[x], x);
  }

  // For env_run of another environment the caller's status does not matter: it ends runnable.
  lemma RunsOther(k: Kern, c: nat, e: nat)
    requires Wf(k) && c < |k.curenv| && k.curenv[c].Some? && k.envs[k.curenv[c].value].status.Running?
    requires e < NENV && k.curenv[c] != Some(e)
    ensures EnvRun(WithStatus(k, k.curenv[c].value, Runnable), c, e) == EnvRun(k, c, e)
  {
  }

  // The caller makes itself runnable and another environment is chosen: a yield like any other.
  lemma SelfYields(k: Kern, c: nat)
    requires Inv(k) && c < |k.curenv| && k.curenv[c].Some? && k.envs[k.curenv[c].value].status.Running?
    requires SelfSet(k, c, Runnable)
    ensures Inv(SchedYield(WithStatus(k, k.curenv[c].value, Runnable), c))
  {
    var cur := k.curenv[c].value;
    var k1 := WithStatus(k, cur, Runnable);
    ChosenIsRunnable(k1);
    assert k1.envs[cur].status.Runnable?;
    var e := Chosen(k1).value;
    EntryIsMid(k, c);
    assert SchedYield(k1, c) == EnvRun(Picked(k1, e), c, e);
    hide Chosen, SelfSet, Inv, MidEntry, EnvRun, SchedYield;
    PickedMid(k, c, e);
    EnvRunInv(Picked(k, e), c, e);
    RunsOther(Picked(k, e), c, e);
    assert WithStatus(Picked(k, e), cur, Runnable) == Picked(k1, e);
  }

  // With no other live environment the CPU enters the kernel monitor.
  lemma SelfFrees(k: Kern, c: nat)
    requires Inv(k) && c < |k.curenv| && k.curenv[c].Some? && SelfSet(k, c, Free)
    ensures SchedYield(WithStatus(k, k.curenv[c].value, Free), c).monitor
  {
    var k1 := WithStatus(k, k.curenv[c].value, Free);
    SearchIsNearest(k1.envs, k1.counter, 1);
  }

  lemma SelfSetInv(k: Kern, c: nat, status: Status)
    requires Inv(k) && c < |k.curenv| && k.curenv[c].Some? && k.envs[k.curenv[c].value].status.Running?
    requires SelfSet(k, c, status)
    ensures var k' := TrapReturn(WithStatus(k, k.curenv[c].value, status), c); k'.monitor || Inv(k')
  {
    var cur := k.curenv[c].value;
    match status
    case Running =>
      EntryIsMid(k, c);
      assert WithStatus(k, cur, Running) == k;
      TrapReturnInv(k, c);
    case NotRunnable =>
      SelfStops(k, c);
      TrapReturnInv(WithStatus(k, cur, NotRunnable), c);
    case Runnable => SelfYields(k, c);
    case Free => SelfFrees(k, c);
  }

  lemma IpcRecvInv(k: Kern, c: nat)
    requires MidEntry(k, c) && k.curenv[c].Some? && k.envs[k.curenv[c].value].status.Running?
    ensures IpcRecv(k, c).monitor || Inv(IpcRecv(k, c))
  {
    var e, k' := k.curenv[c].value, Blocked(k, c);
    StoppedOneCpu(k, c, k'.envs[e]);
    assert EnvOk(k.envs[e], e);
    FreeListSame(k, k');
    assert forall x :: 0 <= x < NENV && x != e ==> k'.envs[x] == k.envs[x] && EnvOk(k.envs[x], x);
    SchedYieldInv(k', c);
  }

  // sys_env_set_status on the caller itself.
  predicate SetsSelf(k: Kern, c: nat, cause: Cause)
    requires Wf(k) && c < |k.curenv|
  {
    cause.SetStatus? && k.curenv[c].Some? && Envid2env(k, c, cause.id, true) == k.curenv[c]
  }

  lemma SyscallInv(k: Kern, c: nat, cause: Cause)
    requires Inv(k) && c < |k.curenv| && k.curenv[c].Some?
    requires k.envs[k.curenv[c].value].status.Running? && Allowed(k, c, cause) && !SetsSelf(k, c, cause)
    ensures var (k', back) := Syscall(k, c, cause);
      if back then MidEntry(k', c) else k'.monitor || Inv(k')
  {
    EntryIsMid(k, c);
    var cur := k.curenv[c].value;
    match cause
    case Timer => SchedYieldInv(k, c);
    case Quick =>
    case Upcall => EnvRunInv(k, c, cur);
    case Crash => EnvDestroyInv(k, c, cur);
    case Exofork(memory) =>
      if memory && k.free.Some? {
        ExoforkMid(k, c, k.envs[cur].id);
      }
    case Destroy(id) =>
      var t := Envid2env(k, c, id, true);
      if t.Some? {
        EnvDestroyInv(k, c, t.value);
      }
    case SetStatus(id, status) =>
      var t := Envid2env(k, c, id, true);
      if t.Some? {
        SetStatusKeeps(k, t.value, status);
        EntryIsMid(WithStatus(k, t.value, status), c);
      }
    case Send(id, value, pageOk) =>
      if IpcAccepts(k, c, id, pageOk) {
        var t := Envid2env(k, c, id, false).value;
        assert EnvOk(k.envs[cur], cur);
        DeliverMid(k, c, t, Msg(k.envs[cur].id, value));
      }
    case Recv(aligned) =>
      if aligned {
        IpcRecvInv(k, c);
      }
  }

  lemma TrapInv(k: Kern, c: nat, cause: Cause)
    requires Inv(k) && c < |k.curenv| && Allowed(k, c, cause)
    ensures Trap(k, c, cause).monitor || Inv(Trap(k, c, cause))
  {
    match k.curenv[c]
    case None =>
      EntryIsMid(k, c);
      SchedYieldInv(k, c);
    case Some(cur) =>
      if k.envs[cur].status.Dying? {
        FreeCurrentMid(k, c);
        SchedYieldInv(EnvFree(k, cur).(curenv := k.curenv[c := None]), c);
      } else if SetsSelf(k, c, cause) {
        SelfSetInv(k, c, cause.status);
      } else {
        SyscallInv(k, c, cause);
        var (k', back) := Syscall(k, c, cause);
        if back {
          TrapReturnInv(k', c);
        }
      }
  }

  // ------------------------------------------------------------------
  // Whole runs
  // ------------------------------------------------------------------

  datatype Entry = Entry(c: nat, cause: Cause)

  predicate Enabled(k: Kern, en: Entry) {
    Wf(k) && !k.monitor && en.c < |k.curenv| && Allowed(k, en.c, en.cause)
  }

  predicate IsRun(k: Kern, es: seq<Entry>)
    decreases |es|
  {
    es == [] || (Enabled(k, es[0]) && IsRun(Trap(k, es[0].c, es[0].cause), es[1..]))
  }

  function Exec(k: Kern, es: seq<Entry>): Kern
    requires IsRun(k, es)
    decreases |es|
  {
    if es == [] then k else Exec(Trap(k, es[0].c, es[0].cause), es[1..])
  }

  // env_init: a zeroed table whose free list runs through the slots in order.
  predicate Boot(k: Kern) {
    && Wf(k) && !k.monitor && k.free == Some(0)
    && (forall c :: 0 <= c < |k.curenv| ==> k.curenv[c] == None)
    && (forall e :: 0 <= e < NENV ==>
          k.envs[e] == Env(Free, 0, 0, 0, if e + 1 < NENV then Some(e + 1) else None, false, Msg(0, 0), [], 0, 0))
  }

  function AllSlots(): (r: seq<nat>)
    ensures |r| == NENV && forall i :: 0 <= i < NENV ==> r[i] == i
  {
    seq(NENV, i => i)
  }

  lemma BootChain(k: Kern)
    requires Boot(k)
    ensures FreeChain(k, AllSlots())
  {
    var chain := AllSlots();
    assert chain[0] == 0;
    forall i | 0 <= i < NENV
      ensures LinkOk(k, chain, i)
    {
      assert i + 1 < NENV ==> chain[i + 1] == i + 1;
    }
    forall e | 0 <= e < NENV
      ensures e in chain
    {
      assert chain[e] == e;
    }
  }

  lemma BootInv(k: Kern)
    requires Boot(k)
    ensures Inv(k)
  {
    BootChain(k);
  }

  // ENV_CREATE at boot.
  lemma CreateInv(k: Kern, parent: int)
    requires Inv(k) && k.free.Some? && 0 < |k.curenv| && k.curenv[0] == None
    ensures Inv(EnvAlloc(k, parent, Runnable))
  {
    var e, k' := k.free.value, EnvAlloc(k, parent, Runnable);
    EntryIsMid(k, 0);
    FreePop(k, parent, Runnable);
    OffCpuUpdate(k, 0, e, k'.envs[e]);
    assert EnvOk(k.envs[e], e);
    assert EnvOk(k'.envs[e], e);
    assert forall x :: 0 <= x < NENV && x != e ==> k'.envs[x] == k.envs[x] && EnvOk(k.envs[x], x);
  }

  lemma {:induction false} RunInv(k: Kern, es: seq<Entry>)
    requires Inv(k) && IsRun(k, es)
    ensures Exec(k, es).monitor || Inv(Exec(k, es))
    decreases |es|
  {
    if es != [] {
      TrapInv(k, es[0].c, es[0].cause);
      var k' := Trap(k, es[0].c, es[0].cause);
      if k'.monitor {
        assert es[1..] == [];
      } else {
        RunInv(k', es[1..]);
      }
    }
  }

  // One environment, one CPU: whenever the kernel lock is free.
  lemma OneEnvironmentOneCpu(k: Kern, es: seq<Entry>, e: nat)
    requires Inv(k) && IsRun(k, es) && !Exec(k, es).monitor && e < NENV
    ensures var k' := Exec(k, es);
      && Wf(k')
      && (forall c :: 0 <= c < |k'.curenv| && k'.curenv[c].Some? ==> OnCpu(k'.envs[k'.curenv[c].value].status))
      && (OnCpu(k'.envs[e].status) ==> exists c :: 0 <= c < |k'.curenv| && k'.curenv[c] == Some(e))
      && (forall c, d :: 0 <= c < |k'.curenv| && 0 <= d < |k'.curenv| && k'.curenv[c] == k'.curenv[d] == Some(e) ==> c == d)
  {
    RunInv(k, es);
  }

  // ------------------------------------------------------------------
  // The guards are exact
  // ------------------------------------------------------------------

  // A dying environment that is destroyed again is freed under the CPU it still runs on.
  lemma DyingBreaks(k: Kern, c: nat, e: nat)
    requires Inv(k) && c < |k.curenv| && e < NENV && k.curenv[c] != Some(e) && k.envs[e].status.Dying?
    ensures !OneCpu(EnvDestroy(k, c, e).0)
  {
    var d :| 0 <= d < |k.curenv| && k.curenv[d] == Some(e);
    assert EnvDestroy(k, c, e).0.curenv[d] == Some(e);
  }

  // env_destroy of another live environment keeps the invariant exactly when it is not dying.
  lemma DestroyGuardIsExact(k: Kern, c: nat, e: nat)
    requires Inv(k) && c < |k.curenv| && e < NENV && k.curenv[c] != Some(e) && !k.envs[e].status.Free?
    requires k.curenv[c].Some? && k.envs[k.curenv[c].value].status.Running?
    ensures Inv(EnvDestroy(k, c, e).0) <==> !k.envs[e].status.Dying?
  {
    if k.envs[e].status.Dying? {
      DyingBreaks(k, c, e);
    } else {
      var cur := k.curenv[c].value;
      EnvDestroyInv(k, c, e);
      MidIsEntry(EnvDestroy(k, c, e).0, c);
    }
  }

  lemma MidIsEntry(k: Kern, c: nat)
    requires MidEntry(k, c) && k.curenv[c].Some? && k.envs[k.curenv[c].value].status.Running?
    ensures Inv(k)
  {
  }

  // The free list is determined by its head and the links.
  lemma {:induction false} ChainsAgree(k: Kern, k': Kern, a: seq<nat>, b: seq<nat>, i: nat)
    requires Wf(k) && Wf(k') && FreeChain(k, a) && FreeChain(k', b) && k.free == k'.free
    requires forall e :: 0 <= e < NENV ==> k.envs[e].link == k'.envs[e].link
    requires i < |b|
    ensures i < |a| && a[i] == b[i]
  {
    if i > 0 {
      ChainsAgree(k, k', a, b, i - 1);
      assert LinkOk(k, a, i - 1) && LinkOk(k', b, i - 1);
    }
  }

  lemma SetStatusBreaks(k: Kern, c: nat, e: nat, status: Status)
    requires Inv(k) && c < |k.curenv| && e < NENV && k.curenv[c] != Some(e) && !k.envs[e].status.Free?
    requires !MaySet(k.envs[e], status)
    ensures !Inv(WithStatus(k, e, status))
  {
    var k' := WithStatus(k, e, status);
    assert EnvOk(k.envs[e], e);
    if status.Free? {
      FreeBreaksList(k, k', e);
    } else if OnCpu(k.envs[e].status) != OnCpu(status) {
      assert OnCpu(k.envs[e].status) ==> exists d :: 0 <= d < |k.curenv| && k.curenv[d] == Some(e);
    } else {
      assert !EnvOk(k'.envs[e], e);
    }
  }

  // sys_env_set_status writes any status; the invariant survives on another environment exactly
  // when the status stays of its kind and a receiver is not made runnable.
  lemma SetStatusGuardIsExact(k: Kern, c: nat, e: nat, status: Status)
    requires Inv(k) && c < |k.curenv| && e < NENV && k.curenv[c] != Some(e) && !k.envs[e].status.Free?
    ensures Inv(WithStatus(k, e, status)) <==> MaySet(k.envs[e], status)
  {
    if MaySet(k.envs[e], status) {
      SetStatusKeeps(k, e, status);
    } else {
      SetStatusBreaks(k, c, e, status);
    }
  }

  lemma FreeBreaksList(k: Kern, k': Kern, e: nat)
    requires Wf(k) && Wf(k') && FreeListOk(k) && k'.free == k.free
    requires forall x :: 0 <= x < NENV ==> k'.envs[x].link == k.envs[x].link
    requires e < NENV && !k.envs[e].status.Free? && k'.envs[e].status.Free?
    ensures !FreeListOk(k')
  {
    if FreeListOk(k') {
      var a :| FreeChain(k, a);
      var b :| FreeChain(k', b);
      assert e in b;
      var i :| 0 <= i < |b| && b[i] == e;
      ChainsAgree(k, k', a, b, i);
    }
  }

  // The final env_run of the current environment repairs nothing.
  lemma RunSameKeeps(k: Kern, c: nat)
    requires Wf(k) && c < |k.curenv| && k.curenv[c].Some? && Inv(EnvRun(k, c, k.curenv[c].value))
    ensures Inv(k)
  {
    var k' := EnvRun(k, c, k.curenv[c].value);
    FreeListSame(k', k);
    EnvsRescheduled(k', k);
    assert forall x :: 0 <= x < NENV ==> k'.envs[x].status == k.envs[x].status;
  }

  // What the scheduler leaves of a caller that is not runnable any more.
  lemma YieldLeaves(k: Kern, c: nat)
    requires Wf(k) && c < |k.curenv| && k.curenv[c].Some?
    requires !k.envs[k.curenv[c].value].status.Running? && !k.envs[k.curenv[c].value].status.Runnable?
    requires exists x :: 0 <= x < NENV && Live(k.envs[x])
    ensures var k', cur := SchedYield(k, c), k.curenv[c].value;
      && k'.monitor == k.monitor && k'.free == k.free && k'.envs[cur].status == k.envs[cur].status
      && k'.curenv[c] != Some(cur)
      && (forall d :: 0 <= d < |k.curenv| && d != c ==> k'.curenv[d] == k.curenv[d])
      && (forall x :: 0 <= x < NENV ==> k'.envs[x].link == k.envs[x].link)
  {
    SearchIsNearest(k.envs, k.counter, 1);
  }

  lemma SelfSetBreaks(k: Kern, c: nat, status: Status)
    requires Inv(k) && c < |k.curenv| && k.curenv[c].Some? && k.envs[k.curenv[c].value].status.Running?
    requires !k.monitor && !SelfSet(k, c, status)
    ensures var k' := TrapReturn(WithStatus(k, k.curenv[c].value, status), c); !k'.monitor && !Inv(k')
  {
    var cur := k.curenv[c].value;
    var k1 := WithStatus(k, cur, status);
    var k' := TrapReturn(k1, c);
    if status.Runnable? {
      assert k'.curenv[c] == Some(cur) && k'.envs[cur].status.Runnable?;
    } else {
      if status.Dying? {
        assert Live(k1.envs[cur]);
      } else {
        var e :| 0 <= e < NENV && e != cur && Live(k.envs[e]);
        assert Live(k1.envs[e]);
      }
      YieldLeaves(k1, c);
      if status.Free? {
        FreeBreaksList(k, k', cur);
      }
    }
  }

  lemma CallGuardIsExact(k: Kern, c: nat, cause: Cause)
    requires Inv(k) && !k.monitor && c < |k.curenv| && k.curenv[c].Some? && k.envs[k.curenv[c].value].status.Running?
    requires !Allowed(k, c, cause)
    ensures !Trap(k, c, cause).monitor && !Inv(Trap(k, c, cause))
  {
    var t := Envid2env(k, c, cause.id, true).value;
    if SetsSelf(k, c, cause) {
      SelfSetBreaks(k, c, cause.status);
    } else if cause.SetStatus? {
      var k1 := WithStatus(k, t, cause.status);
      SetStatusBreaks(k, c, t, cause.status);
      if Inv(Trap(k, c, cause)) {
        RunSameKeeps(k1, c);
      }
    } else {
      DyingBreaks(k, c, t);
      if Inv(Trap(k, c, cause)) {
        RunSameKeeps(EnvDestroy(k, c, t).0, c);
      }
    }
  }

  // A kernel entry keeps the invariant, or enters the monitor for good, exactly when it is allowed.
  lemma GuardsAreExact(k: Kern, c: nat, cause: Cause)
    requires Inv(k) && !k.monitor && c < |k.curenv|
    ensures Trap(k, c, cause).monitor || Inv(Trap(k, c, cause)) <==> Allowed(k, c, cause)
  {
    if Allowed(k, c, cause) {
      TrapInv(k, c, cause);
    } else {
      CallGuardIsExact(k, c, cause);
    }
  }

  // ------------------------------------------------------------------
  // Bounded waiting
  // ------------------------------------------------------------------

  lemma DistAfter(counter: nat, y: nat, x: nat)
    requires counter < NENV && y < NENV && x < NENV && Dist(counter, y) < Dist(counter, x)
    ensures Dist(y, x) == Dist(counter, x) - Dist(counter, y)
  {
  }

  // Passing over x brings the search strictly closer to it.
  lemma YieldProgress(k: Kern, c: nat, x: nat)
    requires Wf(k) && c < |k.curenv| && x < NENV && k.envs[x].status.Runnable? && k.curenv[c] != Some(x)
    requires SchedYield(k, c).envs[x].status.Runnable?
    ensures var k' := SchedYield(k, c);
      && |k'.choices| == |k.choices| + 1 && k'.choices[|k.choices|] != x
      && Dist(k'.counter, x) < Dist(k.counter, x)
  {
    SearchIsNearest(k.envs, k.counter, 1);
    var y := Chosen(k).value;
    assert y != x;
    DistInjective(k.counter, x, y);
    DistAfter(k.counter, y, x);
  }

  lemma DistInjective(counter: nat, x: nat, y: nat)
    requires counter < NENV && x < NENV && y < NENV && x != y
    ensures Dist(counter, x) != Dist(counter, y)
  {
  }

  // Any other system call that returns to trap() has chosen nobody and left its caller running.
  lemma ReturningChoosesNobody(k: Kern, c: nat, cause: Cause)
    requires Inv(k) && c < |k.curenv| && Allowed(k, c, cause) && k.curenv[c].Some?
    requires k.envs[k.curenv[c].value].status.Running? && Syscall(k, c, cause).1 && !SetsSelf(k, c, cause)
    ensures var k' := Syscall(k, c, cause).0;
      && k'.curenv == k.curenv && k'.counter == k.counter && k'.choices == k.choices
      && k'.envs[k.curenv[c].value].status.Running?
  {
    var cur := k.curenv[c].value;
    assert EnvOk(k.envs[cur], cur);
    if cause.Exofork? && k.free.Some? {
      FreePop(k, k.envs[cur].id, NotRunnable);
    }
  }

  lemma TrapProgress(k: Kern, c: nat, cause: Cause, x: nat)
    requires Inv(k) && c < |k.curenv| && Allowed(k, c, cause) && x < NENV
    requires k.envs[x].status.Runnable? && Trap(k, c, cause).envs[x].status.Runnable?
    ensures var k' := Trap(k, c, cause);
      && |k'.choices| - |k.choices| <= Dist(k.counter, x) - Dist(k'.counter, x)
      && |k.choices| <= |k'.choices| <= |k.choices| + 1
  {
    match k.curenv[c]
    case None => YieldProgress(k, c, x);
    case Some(cur) =>
      if k.envs[cur].status.Dying? {
        YieldProgress(EnvFree(k, cur).(curenv := k.curenv[c := None]), c, x);
      } else if SetsSelf(k, c, cause) {
        if !cause.status.Running? {
          YieldProgress(WithStatus(k, cur, cause.status), c, x);
        }
      } else if Syscall(k, c, cause).1 {
        ReturningChoosesNobody(k, c, cause);
      } else {
        LeavingProgress(k, c, cause, x);
      }
  }

  lemma LeavingProgress(k: Kern, c: nat, cause: Cause, x: nat)
    requires Inv(k) && c < |k.curenv| && Allowed(k, c, cause) && x < NENV && k.curenv[c].Some?
    requires k.envs[k.curenv[c].value].status.Running? && !Syscall(k, c, cause).1
    requires k.envs[x].status.Runnable? && Syscall(k, c, cause).0.envs[x].status.Runnable?
    ensures var k' := Syscall(k, c, cause).0;
      && |k'.choices| - |k.choices| <= Dist(k.counter, x) - Dist(k'.counter, x)
      && |k.choices| <= |k'.choices| <= |k.choices| + 1
  {
    var cur := k.curenv[c].value;
    match cause
    case Timer => YieldProgress(k, c, x);
    case Recv(_) => YieldProgress(Blocked(k, c), c, x);
    case Crash => YieldProgress(EnvFree(k, cur).(curenv := k.curenv[c := None]), c, x);
    case Destroy(_) => YieldProgress(EnvFree(k, cur).(curenv := k.curenv[c := None]), c, x);
    case _ =>
  }

  predicate StaysRunnable(k: Kern, es: seq<Entry>, x: nat)
    requires x < NENV && IsRun(k, es)
    decreases |es|
  {
    |k.envs| == NENV && k.envs[x].status.Runnable?
    && (es == [] || StaysRunnable(Trap(k, es[0].c, es[0].cause), es[1..], x))
  }

  // An environment that stays runnable is passed over at most NENV - 1 times.
  lemma {:induction false} BoundedWaiting(k: Kern, es: seq<Entry>, x: nat)
    requires Inv(k) && IsRun(k, es) && x < NENV && StaysRunnable(k, es, x)
    ensures Wf(Exec(k, es))
    ensures |Exec(k, es).choices| - |k.choices| <= Dist(k.counter, x) - Dist(Exec(k, es).counter, x) <= NENV - 1
    decreases |es|
  {
    if es != [] {
      var k' := Trap(k, es[0].c, es[0].cause);
      TrapInv(k, es[0].c, es[0].cause);
      TrapProgress(k, es[0].c, es[0].cause, x);
      if k'.monitor {
        assert es[1..] == [];
      } else {
        BoundedWaiting(k', es[1..], x);
      }
    }
  }

  // ------------------------------------------------------------------
  // Identifiers
  // ------------------------------------------------------------------

  predicate Permitted(k: Kern, c: nat, e: nat, checkperm: bool)
    requires Wf(k) && c < |k.curenv| && e < NENV
  {
    || !checkperm
    || k.curenv[c] == Some(e)
    || (k.curenv[c].Some? && k.envs[e].parent == k.envs[k.curenv[c].value].id)
  }

  // The identifier of the n-th allocation of a slot resolves, to that slot only, exactly when the
  // slot is live and its present allocation is a whole number of generation periods later.
  lemma IdResolvesIff(k: Kern, c: nat, slot: nat, n: nat, checkperm: bool)
    requires Inv(k) && c < |k.curenv| && slot < NENV && 1 <= n <= k.envs[slot].allocs
    ensures var r := Envid2env(k, c, IdAfter(n, slot), checkperm);
      && (r.Some? ==> r == Some(slot))
      && (r.Some? <==> !k.envs[slot].status.Free? && Permitted(k, c, slot, checkperm)
                       && (k.envs[slot].allocs - n) % PERIOD == 0)
  {
    IdShape(n, slot);
    assert EnvOk(k.envs[slot], slot);
    IdsCollideIff(n, k.envs[slot].allocs, slot, slot);
  }

  lemma SmallMultiple(d: int)
    requires 0 <= d < PERIOD
    ensures d % PERIOD == 0 <==> d == 0
  {
  }

  // So within one period a stale identifier never resolves.
  lemma StaleIdNeverResolves(k: Kern, c: nat, slot: nat, n: nat, checkperm: bool)
    requires Inv(k) && c < |k.curenv| && slot < NENV && 1 <= n <= k.envs[slot].allocs
    requires k.envs[slot].allocs - n < PERIOD
    ensures Envid2env(k, c, IdAfter(n, slot), checkperm) == Some(slot) <==>
      n == k.envs[slot].allocs && !k.envs[slot].status.Free? && Permitted(k, c, slot, checkperm)
  {
    IdResolvesIff(k, c, slot, n, checkperm);
    SmallMultiple(k.envs[slot].allocs - n);
    hide Envid2env, IdAfter, Inv, Permitted;
  }

  // ------------------------------------------------------------------
  // IPC
  // ------------------------------------------------------------------

  // A receiver is stopped and on no CPU; every receive that has completed since the slot was
  // allocated has its own successful send, and the environment's fields show the last one.
  lemma Rendezvous(k: Kern, es: seq<Entry>, e: nat)
    requires Inv(k) && IsRun(k, es) && !Exec(k, es).monitor && e < NENV
    ensures var k' := Exec(k, es);
      && Wf(k')
      && (k'.envs[e].recving ==> k'.envs[e].status.NotRunnable? || k'.envs[e].status.Free?)
      && (k'.envs[e].recving ==> forall c :: 0 <= c < |k'.curenv| ==> k'.curenv[c] != Some(e))
      && (!k'.envs[e].status.Free? ==> k'.envs[e].recvs - (if k'.envs[e].recving then 1 else 0) == |k'.envs[e].inbox|)
      && (k'.envs[e].status.Running? && k'.envs[e].recvs > 0 ==>
            (0 < |k'.envs[e].inbox| == k'.envs[e].recvs
             && k'.envs[e].ipc == k'.envs[e].inbox[k'.envs[e].recvs - 1]))
  {
    RunInv(k, es);
    assert EnvOk(Exec(k, es).envs[e], e);
  }

  predicate SameInbox(env: Env, env': Env) {
    env'.inbox == env.inbox && env'.allocs == env.allocs
  }

  lemma YieldInboxes(k: Kern, c: nat, e: nat)
    requires Wf(k) && c < |k.curenv| && e < NENV
    ensures SameInbox(k.envs[e], SchedYield(k, c).envs[e]) && SameInbox(k.envs[e], TrapReturn(k, c).envs[e])
  {
  }

  // What one system call does to an inbox before the trap returns.
  predicate InboxStep(k: Kern, c: nat, cause: Cause, e: nat, env': Env)
    requires Wf(k) && c < |k.curenv| && e < NENV
  {
    var env := k.envs[e];
    || SameInbox(env, env')
    || (cause.Exofork? && env.status.Free? && env'.inbox == [] && env'.allocs == env.allocs + 1)
    || (cause.Send? && k.curenv[c].Some? && env.recving && Envid2env(k, c, cause.id, false) == Some(e)
        && env'.inbox == env.inbox + [Msg(k.envs[k.curenv[c].value].id, cause.value)] && env'.allocs == env.allocs)
  }

  lemma DestroyInboxes(k: Kern, c: nat, t: nat, e: nat)
    requires Wf(k) && c < |k.curenv| && t < NENV && e < NENV
    ensures SameInbox(k.envs[e], EnvDestroy(k, c, t).0.envs[e])
  {
    YieldInboxes(EnvFree(k, t).(curenv := k.curenv[c := None]), c, e);
  }

  lemma SyscallInboxes(k: Kern, c: nat, cause: Cause, e: nat)
    requires Inv(k) && c < |k.curenv| && e < NENV && k.curenv[c].Some?
    ensures InboxStep(k, c, cause, e, Syscall(k, c, cause).0.envs[e])
  {
    var cur := k.curenv[c].value;
    match cause
    case Timer => YieldInboxes(k, c, e);
    case Recv(_) => YieldInboxes(Blocked(k, c), c, e);
    case Crash => DestroyInboxes(k, c, cur, e);
    case Destroy(id) =>
      var t := Envid2env(k, c, id, true);
      if t.Some? {
        DestroyInboxes(k, c, t.value, e);
      }
    case Exofork(_) =>
      if k.free.Some? {
        FreePop(k, k.envs[cur].id, NotRunnable);
      }
    case _ =>
  }

  // An inbox grows only by an accepted send to its owner, with the sender's own identifier and the
  // value sent; it is emptied only when its slot is allocated anew.
  lemma OnlySendsFillInboxes(k: Kern, c: nat, cause: Cause, e: nat)
    requires Inv(k) && c < |k.curenv| && e < NENV
    ensures InboxStep(k, c, cause, e, Trap(k, c, cause).envs[e])
  {
    match k.curenv[c]
    case None => YieldInboxes(k, c, e);
    case Some(cur) =>
      if k.envs[cur].status.Dying? {
        YieldInboxes(EnvFree(k, cur).(curenv := k.curenv[c := None]), c, e);
      } else {
        SyscallInboxes(k, c, cause, e);
        YieldInboxes(Syscall(k, c, cause).0, c, e);
      }
  }
}
