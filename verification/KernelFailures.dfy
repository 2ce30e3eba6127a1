// Runs that end in an entry the kernel's own code does not guard against (kern/env.c:541 and
// kern/syscall.c:109): from boot, on two CPUs or more, with allowed entries only up to the last.
module KernelFailures {
  import opened EnvIds
  import opened Kernel
  import opened Wrappers

  // The identifier of the first environment in slot 1.
  function Child(): int {
    IdAfter(1, 1)
  }

  // CPU 0 runs environment 0; slot 1 has status s; nothing else is runnable.
  predicate Pair(k: Kern, s: Status, other: Option<nat>) {
    && Wf(k) && !k.monitor && |k.curenv| >= 2
    && k.curenv[0] == Some(0) && k.curenv[1] == other
    && k.envs[0].status.Running? && k.envs[1].status == s
    && (s.Free? ==> k.free == Some(1) && k.envs[1].allocs == 0)
    && (!s.Free? ==> k.envs[1].allocs == 1 && k.envs[1].parent == k.envs[0].id && !k.envs[1].recving)
    && (forall x :: 2 <= x < NENV ==> !k.envs[x].status.Runnable?)
  }

  function Begun(k: Kern): Kern
    requires Boot(k)
  {
    EnvAlloc(k, 0, Runnable)
  }

  lemma OnlyRunnable(k: Kern, e: nat)
    requires Wf(k) && e < NENV && k.envs[e].status.Runnable?
    requires forall x :: 0 <= x < NENV && x != e ==> !k.envs[x].status.Runnable?
    ensures Chosen(k) == Some(e)
  {
    ChosenIsRunnable(k);
  }

  lemma BegunRuns(k: Kern)
    requires Boot(k) && |k.curenv| >= 2
    ensures Inv(Begun(k)) && Pair(Trap(Begun(k), 0, Timer), Free, None)
  {
    BootInv(k);
    CreateInv(k, 0);
    OnlyRunnable(Begun(k), 0);
  }

  lemma ChildResolves(k: Kern, s: Status, other: Option<nat>)
    requires Inv(k) && Pair(k, s, other) && !s.Free?
    ensures Envid2env(k, 0, Child(), true) == Some(1)
  {
    assert EnvOk(k.envs[1], 1);
    IdShape(1, 1);
  }

  lemma ChildForked(k: Kern)
    requires Pair(k, Free, None)
    ensures Pair(Trap(k, 0, Exofork(true)), NotRunnable, None)
  {
  }

  lemma ChildStarted(k: Kern)
    requires Inv(k) && Pair(k, NotRunnable, None)
    ensures Allowed(k, 0, SetStatus(Child(), Runnable)) && Pair(Trap(k, 0, SetStatus(Child(), Runnable)), Runnable, None)
  {
    ChildResolves(k, NotRunnable, None);
    hide Envid2env;
  }

  lemma ChildRuns(k: Kern)
    requires Pair(k, Runnable, None)
    ensures Pair(Trap(k, 1, Timer), Running, Some(1))
  {
    OnlyRunnable(k, 1);
  }

  lemma ChildDies(k: Kern)
    requires Inv(k) && Pair(k, Running, Some(1))
    ensures Allowed(k, 0, Destroy(Child())) && Pair(Trap(k, 0, Destroy(Child())), Dying, Some(1))
  {
    ChildResolves(k, Running, Some(1));
    hide Envid2env;
  }

  function DestroyRun(): seq<Entry> {
    [Entry(0, Timer), Entry(0, Exofork(true)), Entry(0, SetStatus(Child(), Runnable)), Entry(1, Timer),
     Entry(0, Destroy(Child()))]
  }

  lemma RunSnoc(k: Kern, es: seq<Entry>, en: Entry)
    requires IsRun(k, es) && Enabled(Exec(k, es), en)
    ensures IsRun(k, es + [en]) && Exec(k, es + [en]) == Trap(Exec(k, es), en.c, en.cause)
    decreases |es|
  {
    hide Trap, Allowed;
    if es == [] {
      assert [] + [en] == [en] && [en][1..] == [];
      assert IsRun(Trap(k, en.c, en.cause), []);
    } else {
      RunSnoc(Trap(k, es[0].c, es[0].cause), es[1..], en);
      assert (es + [en])[1..] == es[1..] + [en];
    }
  }

  // One more entry of a run.
  lemma Next(k: Kern, es: seq<Entry>, i: nat)
    requires i < |es| && Inv(k) && IsRun(k, es[..i]) && Enabled(Exec(k, es[..i]), es[i])
    ensures IsRun(k, es[..i + 1]) && Exec(k, es[..i + 1]) == Trap(Exec(k, es[..i]), es[i].c, es[i].cause)
    ensures Exec(k, es[..i + 1]).monitor || Inv(Exec(k, es[..i + 1]))
  {
    hide Inv, Trap, Enabled;
    RunSnoc(k, es[..i], es[i]);
    assert es[..i] + [es[i]] == es[..i + 1];
    RunInv(k, es[..i + 1]);
  }

  lemma FirstEntry(k: Kern, es: seq<Entry>)
    requires Boot(k) && |k.curenv| >= 2 && es != [] && es[0] == Entry(0, Timer)
    ensures Inv(Begun(k)) && IsRun(Begun(k), es[..1])
    ensures Inv(Exec(Begun(k), es[..1])) && Pair(Exec(Begun(k), es[..1]), Free, None)
  {
    BegunRuns(k);
    assert es[..0] == [];
    hide Inv, Trap;
    Next(Begun(k), es, 0);
  }

  lemma ToStarted(k: Kern)
    requires Boot(k) && |k.curenv| >= 2
    ensures Inv(Begun(k)) && IsRun(Begun(k), DestroyRun()[..3])
    ensures Inv(Exec(Begun(k), DestroyRun()[..3])) && Pair(Exec(Begun(k), DestroyRun()[..3]), Runnable, None)
  {
    hide Inv, Trap, Begun;
    var k0, es := Begun(k), DestroyRun();
    FirstEntry(k, es);
    ChildForked(Exec(k0, es[..1]));
    Next(k0, es, 1);
    ChildStarted(Exec(k0, es[..2]));
    Next(k0, es, 2);
  }

  lemma ToDying(k: Kern)
    requires Boot(k) && |k.curenv| >= 2
    ensures IsRun(Begun(k), DestroyRun())
    ensures Inv(Exec(Begun(k), DestroyRun())) && Pair(Exec(Begun(k), DestroyRun()), Dying, Some(1))
  {
    hide Inv, Trap, Begun;
    var k0, es := Begun(k), DestroyRun();
    ToStarted(k);
    ChildRuns(Exec(k0, es[..3]));
    Next(k0, es, 3);
    ChildDies(Exec(k0, es[..4]));
    Next(k0, es, 4);
    assert es[..5] == es;
  }

  // Environment 0 forks, starts and destroys a child while the child runs on another CPU, and destroys
  // it again before that CPU has entered the kernel: the slot is freed under its feet.
  lemma DestroyedTwice(k: Kern)
    requires Boot(k) && |k.curenv| >= 2
    ensures IsRun(Begun(k), DestroyRun())
    ensures var k' := Exec(Begun(k), DestroyRun());
      Inv(k') && !k'.monitor && !Inv(Trap(k', 0, Destroy(Child())))
  {
    ToDying(k);
    var k' := Exec(Begun(k), DestroyRun());
    ChildResolves(k', Dying, Some(1));
    CallGuardIsExact(k', 0, Destroy(Child()));
  }

  lemma LoneRunner(k: Kern)
    requires Pair(k, Free, None)
    ensures !Allowed(k, 0, SetStatus(0, Runnable))
  {
    OnlyRunnable(WithStatus(k, 0, Runnable), 0);
    hide Chosen;
  }

  // The only environment makes itself runnable: the search comes back to it and env_run leaves it
  // runnable while it runs.
  lemma RunnableWhileRunning(k: Kern)
    requires Boot(k) && |k.curenv| >= 2
    ensures IsRun(Begun(k), [Entry(0, Timer)])
    ensures var k' := Exec(Begun(k), [Entry(0, Timer)]);
      Inv(k') && !k'.monitor && !Inv(Trap(k', 0, SetStatus(0, Runnable)))
  {
    hide Trap, Inv, Begun, Exec, IsRun, Allowed;
    FirstEntry(k, [Entry(0, Timer)]);
    assert [Entry(0, Timer)][..1] == [Entry(0, Timer)];
    var k' := Exec(Begun(k), [Entry(0, Timer)]);
    LoneRunner(k');
    CallGuardIsExact(k', 0, SetStatus(0, Runnable));
  }
}
