// What each kernel entry does, written out: who stops, who runs, who is freed, and when the kernel goes to
// the monitor (kern/trap.c, syscall.c, env.c, sched.c).
module KernelCalls {
  import opened EnvIds
  import opened Kernel
  import opened Wrappers

  // A running environment of CPU c enters the kernel.
  ghost predicate Entered(k: Kern, c: nat, cur: nat) {
    Inv(k) && !k.monitor && c < |k.curenv| && k.curenv[c] == Some(cur) && k.envs[cur].status == Running
  }

  // The caller goes on: env_run of the current environment only counts.
  predicate Resumed(k: Kern, k': Kern, cur: nat)
    requires Wf(k) && cur < NENV
  {
    k' == k.(envs := k.envs[cur := k.envs[cur].(runs := k.envs[cur].runs + 1)])
  }

  predicate OffCpus(k: Kern, e: nat) {
    forall d :: 0 <= d < |k.curenv| ==> k.curenv[d] != Some(e)
  }

  // The environment of a CPU runs or is dying, on that CPU alone.
  lemma InvCurenv(k: Kern, c: nat)
    requires Inv(k) && c < |k.curenv|
    ensures k.curenv[c].Some? ==>
      && (k.envs[k.curenv[c].value].status == Running || k.envs[k.curenv[c].value].status == Dying)
      && forall d :: 0 <= d < |k.curenv| && d != c ==> k.curenv[d] != k.curenv[c]
  {
  }

  // What sched_yield comes to.
  lemma YieldCases(k: Kern, c: nat)
    requires Wf(k) && c < |k.curenv|
    ensures match Chosen(k)
            case Some(e) => k.envs[e].status == Runnable && SchedYield(k, c) == EnvRun(Picked(k, e), c, e)
            case None =>
              && (forall x :: 0 <= x < NENV ==> k.envs[x].status != Runnable)
              && SchedYield(k, c) ==
                 if k.curenv[c].Some? && k.envs[k.curenv[c].value].status == Running
                 then EnvRun(k, c, k.curenv[c].value) else SchedHalt(k, c)
  {
    ChosenIsRunnable(k);
  }

  // An environment that was stopped or freed is not run.
  lemma YieldPasses(k: Kern, c: nat, e: nat)
    requires Wf(k) && c < |k.curenv| && e < NENV
    requires k.envs[e].status != Runnable && k.envs[e].status != Running
    requires forall d :: 0 <= d < |k.curenv| && d != c ==> k.curenv[d] != Some(e)
    ensures var k' := SchedYield(k, c);
      && k'.envs[e] == k.envs[e] && k'.free == k.free
      && (!k'.monitor || k.curenv[c] != Some(e) ==> OffCpus(k', e))
  {
    YieldCases(k, c);
    hide SchedYield, Chosen;
  }

  // ------------------------------------------------------------------
  // The monitor
  // ------------------------------------------------------------------

  // No environment is ENV_RUNNABLE, ENV_RUNNING or ENV_DYING.
  predicate AllStopped(k: Kern)
    requires Wf(k)
  {
    forall e :: 0 <= e < NENV ==> k.envs[e].status == Free || k.envs[e].status == NotRunnable
  }

  lemma HaltMonitorIff(k: Kern, c: nat)
    requires Wf(k) && c < |k.curenv| && !k.monitor
    ensures SchedHalt(k, c).monitor <==> AllStopped(SchedHalt(k, c))
  {
  }

  lemma YieldMonitorIff(k: Kern, c: nat)
    requires Wf(k) && c < |k.curenv| && !k.monitor
    ensures SchedYield(k, c).monitor <==> AllStopped(SchedYield(k, c))
  {
    ChosenIsRunnable(k);
    hide Chosen;
    match Chosen(k)
    case Some(e) => assert !AllStopped(SchedYield(k, c)) by { RunsSomeone(Picked(k, e), c, e); }
    case None =>
      if k.curenv[c].Some? && k.envs[k.curenv[c].value].status.Running? {
        RunsSomeone(k, c, k.curenv[c].value);
      } else {
        HaltMonitorIff(k, c);
      }
  }

  lemma RunsSomeone(k: Kern, c: nat, e: nat)
    requires Wf(k) && c < |k.curenv| && e < NENV && (k.envs[e].status.Runnable? || k.envs[e].status.Running?)
    ensures !AllStopped(EnvRun(k, c, e)) && EnvRun(k, c, e).monitor == k.monitor
  {
    assert EnvRun(k, c, e).envs[e].status.Running? || EnvRun(k, c, e).envs[e].status.Runnable?;
  }

  lemma ReturnMonitorIff(k: Kern, c: nat)
    requires Wf(k) && c < |k.curenv| && !k.monitor
    ensures TrapReturn(k, c).monitor <==> AllStopped(TrapReturn(k, c))
  {
    if k.curenv[c].Some? && k.envs[k.curenv[c].value].status.Running? {
      RunsSomeone(k, c, k.curenv[c].value);
    } else {
      YieldMonitorIff(k, c);
    }
  }

  // A kernel entry, whatever its cause, ends in the monitor exactly when it leaves no environment runnable,
  // running or dying.
  lemma MonitorIff(k: Kern, c: nat, cause: Cause)
    requires Inv(k) && !k.monitor && c < |k.curenv|
    ensures var k' := Trap(k, c, cause);
      k'.monitor <==>
      forall e :: 0 <= e < NENV ==> k'.envs[e].status == Free || k'.envs[e].status == NotRunnable
  {
    hide SchedYield, TrapReturn, Envid2env;
    match k.curenv[c]
    case None => YieldMonitorIff(k, c);
    case Some(cur) =>
      if k.envs[cur].status.Dying? {
        YieldMonitorIff(EnvFree(k, cur).(curenv := k.curenv[c := None]), c);
      } else {
        SyscallMonitorIff(k, c, cause);
        var (k', back) := Syscall(k, c, cause);
        if back {
          ReturnMonitorIff(k', c);
        }
      }
  }

  lemma SyscallMonitorIff(k: Kern, c: nat, cause: Cause)
    requires Inv(k) && !k.monitor && c < |k.curenv| && k.curenv[c].Some? && !k.envs[k.curenv[c].value].status.Dying?
    ensures var (k', back) := Syscall(k, c, cause);
      if back then !k'.monitor else k'.monitor <==> AllStopped(k')
  {
    hide SchedYield, AllStopped, Envid2env;
    var cur := k.curenv[c].value;
    match cause
    case Timer => YieldMonitorIff(k, c);
    case Upcall => RunsSomeone(k, c, cur);
    case Crash => YieldMonitorIff(EnvFree(k, cur).(curenv := k.curenv[c := None]), c);
    case Destroy(id) =>
      if Envid2env(k, c, id, true) == Some(cur) {
        YieldMonitorIff(EnvFree(k, cur).(curenv := k.curenv[c := None]), c);
      }
    case Recv(aligned) => YieldMonitorIff(Blocked(k, c), c);
    case _ =>
  }

  // The same over runs: the machine is in the monitor after its last entry exactly when nothing is left to
  // run or to free.
  lemma {:induction false} MonitorIffInRun(k: Kern, es: seq<Entry>)
    requires Inv(k) && IsRun(k, es) && es != [] && !k.monitor
    ensures Exec(k, es).monitor <==>
      forall e :: 0 <= e < NENV && e < |Exec(k, es).envs| ==>
        Exec(k, es).envs[e].status == Free || Exec(k, es).envs[e].status == NotRunnable
    decreases |es|
  {
    var k' := Trap(k, es[0].c, es[0].cause);
    MonitorIff(k, es[0].c, es[0].cause);
    TrapInv(k, es[0].c, es[0].cause);
    hide Inv, Trap;
    if es[1..] != [] {
      MonitorIffInRun(k', es[1..]);
    }
  }

  // ------------------------------------------------------------------
  // env_run and the scheduler
  // ------------------------------------------------------------------

  // Each env_run raises exactly its target's env_runs, by one.
  lemma RunCounts(k: Kern, c: nat, e: nat, x: nat)
    requires Wf(k) && c < |k.curenv| && e < NENV && x < NENV
    ensures var k' := EnvRun(k, c, e);
      && k'.envs[x].runs == k.envs[x].runs + (if x == e then 1 else 0)
      && k'.curenv == k.curenv[c := Some(e)]
  {
  }

  // From k to k' CPU c ran exactly one environment, or halted, or went to the monitor.
  ghost predicate RanOne(k: Kern, k': Kern, c: nat) {
    && Wf(k) && Wf(k') && |k'.curenv| == |k.curenv| && c < |k.curenv|
    && (forall d :: 0 <= d < |k.curenv| && d != c ==> k'.curenv[d] == k.curenv[d])
    && (forall x :: 0 <= x < NENV ==> k'.envs[x].allocs == k.envs[x].allocs)
    && (forall x :: 0 <= x < NENV ==>
          k'.envs[x].runs == k.envs[x].runs + (if !k'.monitor && k'.curenv[c] == Some(x) then 1 else 0))
  }

  lemma YieldRunsOne(k: Kern, c: nat)
    requires Wf(k) && c < |k.curenv| && !k.monitor
    ensures RanOne(k, SchedYield(k, c), c)
  {
    ChosenIsRunnable(k);
    hide Chosen;
  }

  lemma ReturnRunsOne(k: Kern, c: nat)
    requires Wf(k) && c < |k.curenv| && !k.monitor
    ensures RanOne(k, TrapReturn(k, c), c)
  {
    hide SchedYield;
    if !(k.curenv[c].Some? && k.envs[k.curenv[c].value].status.Running?) {
      YieldRunsOne(k, c);
    }
  }

  predicate SameRuns(k: Kern, k': Kern, c: nat)
    requires c < |k.curenv|
  {
    && Wf(k) && Wf(k') && k'.monitor == k.monitor && |k'.curenv| == |k.curenv|
    && (forall d :: 0 <= d < |k.curenv| && d != c ==> k'.curenv[d] == k.curenv[d])
    && (forall x :: 0 <= x < NENV ==> k'.envs[x].allocs == k.envs[x].allocs && k'.envs[x].runs == k.envs[x].runs)
  }

  lemma RunsCompose(k: Kern, k1: Kern, k2: Kern, c: nat)
    requires c < |k.curenv| && SameRuns(k, k1, c) && RanOne(k1, k2, c)
    ensures RanOne(k, k2, c)
  {
  }

  lemma DestroyRuns(k: Kern, c: nat, cur: nat, e: nat)
    requires Entered(k, c, cur) && e < NENV
    ensures var (k', back) := EnvDestroy(k, c, e);
      if back then SameRuns(k, k', c) else RanOne(k, k', c)
  {
    hide SchedYield;
    if e == cur {
      YieldRunsOne(EnvFree(k, e).(curenv := k.curenv[c := None]), c);
    }
  }

  lemma TargetInRange(k: Kern, c: nat, id: int)
    requires Wf(k) && c < |k.curenv|
    ensures Envid2env(k, c, id, true).Some? ==> Envid2env(k, c, id, true).value < NENV
  {
  }

  // Every call but sys_exofork leaves the allocations alone.
  lemma SyscallRuns(k: Kern, c: nat, cur: nat, cause: Cause)
    requires Entered(k, c, cur) && !cause.Exofork?
    ensures var (k', back) := Syscall(k, c, cause);
      if back then SameRuns(k, k', c) else RanOne(k, k', c)
  {
    hide SchedYield, EnvDestroy, Envid2env, OneCpu, EnvsOk, FreeListOk;
    match cause
    case Timer => YieldRunsOne(k, c);
    case Crash => DestroyRuns(k, c, cur, cur);
    case Destroy(id) =>
      TargetInRange(k, c, id);
      if Envid2env(k, c, id, true).Some? {
        DestroyRuns(k, c, cur, Envid2env(k, c, id, true).value);
      }
    case SetStatus(id, status) => StatusRuns(k, c, cur, id, status);
    case Send(id, value, pageOk) => SendRuns(k, c, cur, id, value, pageOk);
    case Recv(aligned) => YieldRunsOne(Blocked(k, c), c);
    case _ =>
  }

  lemma StatusRuns(k: Kern, c: nat, cur: nat, id: int, status: Status)
    requires Entered(k, c, cur)
    ensures SameRuns(k, Syscall(k, c, SetStatus(id, status)).0, c)
  {
    hide OneCpu, EnvsOk, FreeListOk;
  }

  lemma SendRuns(k: Kern, c: nat, cur: nat, id: int, value: nat, pageOk: bool)
    requires Entered(k, c, cur)
    ensures SameRuns(k, Syscall(k, c, Send(id, value, pageOk)).0, c)
  {
    hide OneCpu, EnvsOk, FreeListOk;
  }

  lemma CallRunsOne(k: Kern, c: nat, cur: nat, cause: Cause)
    requires Entered(k, c, cur) && !cause.Exofork?
    ensures RanOne(k, Trap(k, c, cause), c)
  {
    hide SchedYield, TrapReturn, Syscall, OneCpu, EnvsOk, FreeListOk;
    SyscallRuns(k, c, cur, cause);
    var (k1, back) := Syscall(k, c, cause);
    if back {
      ReturnRunsOne(k1, c);
      RunsCompose(k, k1, TrapReturn(k1, c), c);
    }
  }

  // Over a whole entry: the environment the CPU leaves the kernel with, and it alone, has its env_runs
  // raised, by one; no other CPU changes its environment.  (sys_exofork also starts the child's from 0.)
  lemma EntryRunsOne(k: Kern, c: nat, cause: Cause)
    requires Inv(k) && !k.monitor && c < |k.curenv|
    ensures var k' := Trap(k, c, cause);
      && (forall d :: 0 <= d < |k.curenv| && d != c ==> k'.curenv[d] == k.curenv[d])
      && (forall x :: 0 <= x < NENV && k'.envs[x].allocs == k.envs[x].allocs ==>
            k'.envs[x].runs == k.envs[x].runs + (if !k'.monitor && k'.curenv[c] == Some(x) then 1 else 0))
  {
    hide OneCpu, EnvsOk, FreeListOk, SchedYield;
    InvCurenv(k, c);
    match k.curenv[c]
    case None => YieldRunsOne(k, c);
    case Some(cur) =>
      if k.envs[cur].status.Dying? {
        YieldRunsOne(EnvFree(k, cur).(curenv := k.curenv[c := None]), c);
      } else if !cause.Exofork? {
        CallRunsOne(k, c, cur, cause);
      } else {
        ExoforkDoes(k, c, cur, cause.memory);
      }
  }

  // ------------------------------------------------------------------
  // The system calls
  // ------------------------------------------------------------------

  lemma RecvBlocks(k: Kern, c: nat, cur: nat)
    requires Entered(k, c, cur)
    ensures Wf(Blocked(k, c)) && Trap(k, c, Recv(true)) == SchedYield(Blocked(k, c), c)
    ensures Blocked(k, c) == k.(envs := k.envs[cur := k.envs[cur].(
      recving := true, status := NotRunnable, recvs := k.envs[cur].recvs + 1)])
  {
    hide SchedYield, OneCpu, EnvsOk, FreeListOk;
  }

  // An aligned receive leaves its caller receiving, stopped and on no CPU.
  lemma RecvDoes(k: Kern, c: nat, cur: nat)
    requires Entered(k, c, cur)
    ensures var k' := Trap(k, c, Recv(true));
      && k'.envs[cur].recving && k'.envs[cur].status == NotRunnable && k'.envs[cur].recvs == k.envs[cur].recvs + 1
      && (!k'.monitor ==> OffCpus(k', cur))
  {
    hide SchedYield, Trap, Blocked, OneCpu, EnvsOk, FreeListOk;
    RecvBlocks(k, c, cur);
    InvCurenv(k, c);
    YieldPasses(Blocked(k, c), c, cur);
  }

  // An unaligned one, like the calls that touch no scheduling state, changes nothing.
  lemma NothingDone(k: Kern, c: nat, cur: nat, cause: Cause)
    requires Entered(k, c, cur) && (cause == Recv(false) || cause == Quick || cause == Upcall)
    ensures Resumed(k, Trap(k, c, cause), cur)
  {
  }

  // A send to a live environment that is receiving delivers; any other does nothing.
  lemma SendDoes(k: Kern, c: nat, cur: nat, id: int, value: nat, pageOk: bool)
    requires Entered(k, c, cur)
    ensures var k', t := Trap(k, c, Send(id, value, pageOk)), Envid2env(k, c, id, false);
      if t.Some? && k.envs[t.value].recving && pageOk then
        && t.value != cur
        && Resumed(k.(envs := k.envs[t.value := k'.envs[t.value]]), k', cur)
        && k'.envs[t.value].status == Runnable && !k'.envs[t.value].recving
        && k'.envs[t.value].ipc == Msg(k.envs[cur].id, value)
        && k'.envs[t.value].inbox == k.envs[t.value].inbox + [Msg(k.envs[cur].id, value)]
      else Resumed(k, k', cur)
  {
    var t := Envid2env(k, c, id, false);
    assert EnvOk(k.envs[cur], cur);
    hide Envid2env, SchedYield;
  }

  // sys_env_destroy of another environment: one that runs elsewhere is marked dying, any other is freed.
  lemma DestroyDoes(k: Kern, c: nat, cur: nat, id: int)
    requires Entered(k, c, cur)
    ensures var k', t := Trap(k, c, Destroy(id)), Envid2env(k, c, id, true);
      && (t.None? ==> Resumed(k, k', cur))
      && (t.Some? && t.value != cur ==>
            if k.envs[t.value].status == Running then
              Resumed(k.(envs := k.envs[t.value := k.envs[t.value].(status := Dying)]), k', cur)
            else
              Resumed(k.(envs := k.envs[t.value := k.envs[t.value].(status := Free, link := k.free)],
                         free := Some(t.value)), k', cur))
      && (t == Some(cur) ==> Gone(k, k', cur))
  {
    hide Envid2env, SchedYield;
    if Envid2env(k, c, id, true) == Some(cur) {
      FreedAndYielded(k, c, cur);
    }
  }

  // The environment is free, first on the free list, and on no CPU.
  predicate Gone(k: Kern, k': Kern, e: nat) {
    && Wf(k) && Wf(k') && e < NENV && k'.envs[e].status == Free && k'.free == Some(e) && k'.envs[e].link == k.free
    && OffCpus(k', e)
  }

  lemma FreedAndYielded(k: Kern, c: nat, e: nat)
    requires Inv(k) && c < |k.curenv| && k.curenv[c] == Some(e)
    ensures Gone(k, SchedYield(EnvFree(k, e).(curenv := k.curenv[c := None]), c), e)
  {
    InvCurenv(k, c);
    hide SchedYield, OneCpu, EnvsOk, FreeListOk;
    YieldPasses(EnvFree(k, e).(curenv := k.curenv[c := None]), c, e);
  }

  // A crash frees the caller; an environment marked dying is freed when its CPU next enters the kernel,
  // whatever for.
  lemma CrashDoes(k: Kern, c: nat, cur: nat)
    requires Entered(k, c, cur)
    ensures Gone(k, Trap(k, c, Crash), cur)
  {
    hide SchedYield;
    FreedAndYielded(k, c, cur);
  }

  lemma DyingIsFreed(k: Kern, c: nat, cur: nat, cause: Cause)
    requires Inv(k) && c < |k.curenv| && k.curenv[c] == Some(cur) && k.envs[cur].status == Dying
    ensures Gone(k, Trap(k, c, cause), cur)
  {
    hide SchedYield;
    FreedAndYielded(k, c, cur);
  }

  // sys_exofork takes the first free slot for a stopped child of the caller.
  lemma ExoforkDoes(k: Kern, c: nat, cur: nat, memory: bool)
    requires Entered(k, c, cur)
    ensures var k' := Trap(k, c, Exofork(memory));
      if memory && k.free.Some? then
        var e := k.free.value;
        && e != cur && k.envs[e].status == Free
        && Resumed(k.(envs := k.envs[e := k'.envs[e]], free := k.envs[e].link), k', cur)
        && k'.envs[e].status == NotRunnable && k'.envs[e].parent == k.envs[cur].id && !k'.envs[e].recving
        && k'.envs[e].allocs == k.envs[e].allocs + 1 && k'.envs[e].id == IdAfter(k.envs[e].allocs + 1, e)
        && k'.envs[e].runs == 0 && k'.envs[e].inbox == [] && k'.envs[e].recvs == 0
      else Resumed(k, k', cur)
  {
    if memory && k.free.Some? {
      FreePop(k, k.envs[cur].id, NotRunnable);
      assert EnvOk(k.envs[k.free.value], k.free.value);
      hide NextId;
    }
  }

  // sys_env_set_status on another environment sets just that; on the caller, see SelfStatusDoes.
  lemma SetStatusDoes(k: Kern, c: nat, cur: nat, id: int, status: Status)
    requires Entered(k, c, cur) && Envid2env(k, c, id, true) != Some(cur)
    ensures var k', t := Trap(k, c, SetStatus(id, status)), Envid2env(k, c, id, true);
      if t.Some? then Resumed(k.(envs := k.envs[t.value := k.envs[t.value].(status := status)]), k', cur)
      else Resumed(k, k', cur)
  {
    hide Envid2env;
  }

  lemma SelfStatusDoes(k: Kern, c: nat, cur: nat, id: int, status: Status)
    requires Entered(k, c, cur) && Envid2env(k, c, id, true) == Some(cur) && Allowed(k, c, SetStatus(id, status))
    ensures var k' := Trap(k, c, SetStatus(id, status));
      && k'.envs[cur].status == status
      && (status == Running ==> Resumed(k, k', cur))
      && (status != Running && !k'.monitor ==> OffCpus(k', cur))
  {
    InvCurenv(k, c);
    hide SchedYield, Envid2env, OneCpu, EnvsOk, FreeListOk, Chosen;
    var k1 := WithStatus(k, cur, status);
    if status.Running? {
      assert k1 == k;
    } else if status.Runnable? {
      YieldCases(k1, c);
      assert k1.envs[cur].status.Runnable?;
    } else {
      YieldPasses(k1, c, cur);
    }
  }

  lemma NearestIsChosen(k: Kern)
    requires Wf(k)
    ensures Chosen(k).Some? ==>
      Chosen(k).value < NENV
      && forall x :: 0 <= x < NENV && k.envs[x].status == Runnable ==>
           Dist(k.counter, Chosen(k).value) <= Dist(k.counter, x)
  {
    SearchIsNearest(k.envs, k.counter, 1);
  }

  lemma YieldRunsNearest(k: Kern, c: nat)
    requires Inv(k) && c < |k.curenv| && Chosen(k).Some?
    requires k.curenv[c].Some? ==> k.envs[k.curenv[c].value].status == Running
    ensures var k', e := SchedYield(k, c), Chosen(k).value;
      && e < NENV && k.envs[e].status == Runnable && k'.curenv[c] == Some(e) && k'.counter == e
      && k'.envs[e].status == Running
      && (k.curenv[c].Some? ==> k'.envs[k.curenv[c].value].status == Runnable)
  {
    YieldCases(k, c);
    hide SchedYield, Chosen, OneCpu, EnvsOk, FreeListOk;
  }

  // sys_yield and the timer: the runnable environment nearest after the last one chosen runs, and the caller
  // waits its turn; with none runnable the caller goes on, and an idle CPU stays idle.
  lemma YieldDoes(k: Kern, c: nat)
    requires Inv(k) && c < |k.curenv|
    requires k.curenv[c].Some? ==> k.envs[k.curenv[c].value].status == Running
    ensures var k' := Trap(k, c, Timer);
      if exists x :: 0 <= x < NENV && k.envs[x].status == Runnable then
        && k'.curenv[c].Some? && k'.counter == k'.curenv[c].value
        && k'.envs[k'.counter].status == Running && k.envs[k'.counter].status == Runnable
        && (forall x :: 0 <= x < NENV && k.envs[x].status == Runnable ==>
              Dist(k.counter, k'.counter) <= Dist(k.counter, x))
        && (k.curenv[c].Some? ==> k'.envs[k.curenv[c].value].status == Runnable)
      else if k.curenv[c].Some? then Resumed(k, k', k.curenv[c].value)
      else k' == k.(monitor := k'.monitor)
  {
    NearestIsChosen(k);
    YieldCases(k, c);
    if Chosen(k).Some? {
      hide SchedYield, Chosen, Dist, OneCpu, EnvsOk, FreeListOk;
      YieldRunsNearest(k, c);
    } else if k.curenv[c].None? {
      IdleStays(k, c);
    }
  }

  lemma IdleStays(k: Kern, c: nat)
    requires Wf(k) && c < |k.curenv| && k.curenv[c].None?
    requires forall x :: 0 <= x < NENV ==> k.envs[x].status != Runnable
    ensures SchedHalt(k, c) == k.(monitor := SchedHalt(k, c).monitor)
  {
    assert k.curenv[c := None] == k.curenv;
  }

  // ------------------------------------------------------------------
  // Identifiers
  // ------------------------------------------------------------------

  // An identifier other than 0 resolves to the one live environment that has it, if the caller may name it,
  // and otherwise to none.
  lemma IdNamesOne(k: Kern, c: nat, id: int, slot: nat, checkperm: bool)
    requires Inv(k) && c < |k.curenv| && id != 0 && slot < NENV
    ensures Envid2env(k, c, id, checkperm) == Some(slot) <==>
      k.envs[slot].id == id && k.envs[slot].status != Free && Permitted(k, c, slot, checkperm)
  {
    assert EnvOk(k.envs[slot], slot);
    if k.envs[slot].status != Free {
      IdShape(k.envs[slot].allocs, slot);
    }
  }
}
