// The kernel routines as they update env_free_list, envs, curenv and env_counter in place.
module KernelCode {
  import opened EnvIds
  import opened Wrappers
  import opened Kernel

  class KernelState {
    var envs: seq<Env>
    var free: Option<nat>
    var curenv: seq<Option<nat>>
    var counter: nat
    var monitor: bool
    ghost var choices: seq<nat>

    ghost function K(): Kern
      reads this
    {
      Kern(envs, free, curenv, counter, choices, monitor)
    }

    method RunEnv(c: nat, e: nat)
      requires Wf(K()) && c < |curenv| && e < NENV
      modifies this`envs, this`curenv
      ensures K() == EnvRun(old(K()), c, e)
    {
      if curenv[c] == Some(e) {
        envs := envs[e := envs[e].(runs := envs[e].runs + 1)];
        return;
      }
      if curenv[c].Some? {
        var o := curenv[c].value;
        if envs[o].status.Running? {
          envs := envs[o := envs[o].(status := Runnable)];
        }
      }
      curenv := curenv[c := Some(e)];
      envs := envs[e := envs[e].(status := Running)];
      envs := envs[e := envs[e].(runs := envs[e].runs + 1)];
    }

    method Halt(c: nat)
      requires Wf(K()) && c < |curenv|
      modifies this`curenv, this`monitor
      ensures K() == SchedHalt(old(K()), c)
      ensures monitor <==>
        old(monitor) || forall e :: 0 <= e < NENV ==> old(envs)[e].status == Free || old(envs)[e].status == NotRunnable
    {
      var i := 0;
      while i < NENV
        invariant 0 <= i <= NENV
        invariant forall e :: 0 <= e < i ==> !Live(envs[e])
      {
        if Live(envs[i]) {
          break;
        }
        i := i + 1;
      }
      if i == NENV {
        monitor := true;
      } else {
        assert Live(envs[i]);
        curenv := curenv[c := None];
      }
    }

    method Yield(c: nat)
      requires Wf(K()) && c < |curenv|
      modifies this
      ensures K() == SchedYield(old(K()), c)
    {
      var i := 1;
      while i <= NENV
        invariant 1 <= i <= NENV + 1
        invariant K() == old(K())
        invariant Chosen(K()) == Search(envs, counter, i)
      {
        var e := (counter + i) % NENV;
        if envs[e].status.Runnable? {
          counter := e;
          choices := choices + [e];
          RunEnv(c, e);
          return;
        }
        i := i + 1;
      }
      if curenv[c].Some? && envs[curenv[c].value].status.Running? {
        RunEnv(c, curenv[c].value);
      } else {
        Halt(c);
      }
    }

    method FreeEnv(e: nat)
      requires Wf(K()) && e < NENV
      modifies this`envs, this`free
      ensures K() == EnvFree(old(K()), e)
    {
      envs := envs[e := envs[e].(status := Free)];
      envs := envs[e := envs[e].(link := free)];
      free := Some(e);
    }

    // back is false when env_destroy does not return to its caller.
    method DestroyEnv(c: nat, e: nat) returns (back: bool)
      requires Wf(K()) && c < |curenv| && e < NENV
      modifies this
      ensures (K(), back) == EnvDestroy(old(K()), c, e)
    {
      if envs[e].status.Running? && curenv[c] != Some(e) {
        envs := envs[e := envs[e].(status := Dying)];
        return true;
      }
      FreeEnv(e);
      if curenv[c] == Some(e) {
        curenv := curenv[c := None];
        Yield(c);
        return false;
      }
      return true;
    }

    method AllocEnv(parent: int) returns (e: Option<nat>)
      requires Wf(K())
      modifies this`envs, this`free
      ensures e == old(free)
      ensures K() == if e.Some? then EnvAlloc(old(K()), parent, Runnable) else old(K())
    {
      e := free;
      if e.None? {
        return;
      }
      var s := e.value;
      var sum := Int32(envs[s].id + ENVGENSTEP);
      var generation := sum - sum % NENV;
      if generation <= 0 {
        generation := ENVGENSTEP;
      }
      envs := envs[s := envs[s].(id := generation + s)];
      envs := envs[s := envs[s].(parent := parent, status := Runnable, runs := 0)];
      envs := envs[s := envs[s].(recving := false)];
      envs := envs[s := envs[s].(inbox := [], recvs := 0, allocs := envs[s].allocs + 1)];
      free := envs[s].link;
    }

    method Lookup(c: nat, id: int, checkperm: bool) returns (e: Option<nat>)
      requires Wf(K()) && c < |curenv|
      ensures e == Envid2env(K(), c, id, checkperm)
    {
      if id == 0 {
        return curenv[c];
      }
      var s := Envx(id);
      if envs[s].status.Free? || envs[s].id != id {
        return None;
      }
      if checkperm && curenv[c] != Some(s) {
        if curenv[c].None? || envs[s].parent != envs[curenv[c].value].id {
          return None;
        }
      }
      return Some(s);
    }

    method SysExofork(c: nat, memory: bool)
      requires Wf(K()) && c < |curenv| && curenv[c].Some?
      modifies this`envs, this`free
      ensures K() == Syscall(old(K()), c, Exofork(memory)).0
    {
      if memory {
        var e := AllocEnv(envs[curenv[c].value].id);
        if e.Some? {
          envs := envs[e.value := envs[e.value].(status := NotRunnable)];
        }
      }
    }

    method SysIpcTrySend(c: nat, id: int, value: nat, pageOk: bool) returns (sent: bool)
      requires Wf(K()) && c < |curenv| && curenv[c].Some?
      modifies this`envs
      ensures sent <==> IpcAccepts(old(K()), c, id, pageOk)
      ensures K() == Syscall(old(K()), c, Send(id, value, pageOk)).0
    {
      var d := Lookup(c, id, false);
      if d.None? || !envs[d.value].recving || !pageOk {
        return false;
      }
      var t, from := d.value, envs[curenv[c].value].id;
      envs := envs[t := envs[t].(recving := false)];
      envs := envs[t := envs[t].(ipc := Msg(from, value), inbox := envs[t].inbox + [Msg(from, value)])];
      envs := envs[t := envs[t].(status := Runnable)];
      return true;
    }

    method SysIpcRecv(c: nat)
      requires Wf(K()) && c < |curenv| && curenv[c].Some?
      modifies this
      ensures K() == IpcRecv(old(K()), c)
    {
      var e := curenv[c].value;
      envs := envs[e := envs[e].(recving := true, recvs := envs[e].recvs + 1)];
      envs := envs[e := envs[e].(status := NotRunnable)];
      assert envs == Blocked(old(K()), c).envs;
      Yield(c);
    }

    method Dispatch(c: nat, cause: Cause) returns (back: bool)
      requires Wf(K()) && c < |curenv| && curenv[c].Some?
      modifies this
      ensures (K(), back) == Syscall(old(K()), c, cause)
    {
      back := true;
      match cause
      case Timer => Yield(c); back := false;
      case Quick =>
      case Upcall => RunEnv(c, curenv[c].value); back := false;
      case Crash => back := DestroyEnv(c, curenv[c].value);
      case Exofork(memory) => SysExofork(c, memory);
      case Destroy(id) =>
        var t := Lookup(c, id, true);
        if t.Some? {
          back := DestroyEnv(c, t.value);
        }
      case SetStatus(id, status) =>
        var t := Lookup(c, id, true);
        if t.Some? {
          envs := envs[t.value := envs[t.value].(status := status)];
        }
      case Send(id, value, pageOk) => var _ := SysIpcTrySend(c, id, value, pageOk);
      case Recv(aligned) =>
        if aligned {
          SysIpcRecv(c);
          back := false;
        }
    }

    // From lock_kernel() to unlock_kernel(): one kernel entry keeps the invariant.
    method EnterKernel(c: nat, cause: Cause)
      requires Inv(K()) && c < |curenv| && Allowed(K(), c, cause)
      modifies this
      ensures K() == Trap(old(K()), c, cause)
      ensures monitor || Inv(K())
    {
      TrapInv(K(), c, cause);
      if curenv[c].None? {
        Yield(c);
        return;
      }
      if envs[curenv[c].value].status.Dying? {
        FreeEnv(curenv[c].value);
        curenv := curenv[c := None];
        Yield(c);
        return;
      }
      var back := Dispatch(c, cause);
      if !back {
        return;
      }
      if curenv[c].Some? && envs[curenv[c].value].status.Running? {
        RunEnv(c, curenv[c].value);
      } else {
        Yield(c);
      }
    }
  }
}
