// Environment identifiers (kern/env.c, inc/env.h): generation counters under 32-bit wrap-around.
module EnvIds {

  const NENV: nat := 1024
  const ENVGENSTEP: nat := 4096        // 1 << ENVGENSHIFT
  const TWO31: int := 0x8000_0000
  const TWO32: int := 0x1_0000_0000

  // The distinct generations of one slot: 4096, 8192, ..., 2^31 - 4096.
  const PERIOD: nat := 0x7_FFFF

  // Conversion to int32_t.
  function Int32(x: int): int {
    var m := x % TWO32;
    if m >= TWO31 then m - TWO32 else m
  }

  // env_alloc's new env_id for the slot whose previous env_id is given.
  function NextId(id: int, slot: nat): int {
    var sum := Int32(id + ENVGENSTEP);
    var generation := sum - sum % NENV;         // & ~(NENV - 1)
    (if generation <= 0 then ENVGENSTEP as int else generation) + slot    // | (e - envs)
  }

  // ENVX(envid) = envid & (NENV - 1), also for negative arguments.
  function Envx(id: int): nat {
    id % NENV
  }

  // The env_id of a slot after n allocations, starting from the zeroed table of env_init.
  function IdAfter(n: nat, slot: nat): int {
    if n == 0 then 0 else NextId(IdAfter(n - 1, slot), slot)
  }

  function ClosedForm(n: nat, slot: nat): int {
    if n == 0 then 0 else ((n - 1) % PERIOD + 1) * ENVGENSTEP + slot
  }

  lemma NextFromGeneration(g: nat, slot: nat)
    requires 1 <= g <= PERIOD && slot < NENV
    ensures NextId(g * ENVGENSTEP + slot, slot) == (if g == PERIOD then 1 else g + 1) * ENVGENSTEP + slot
  {
  }

  // The counter runs through its PERIOD generations and starts again.
  lemma {:induction false} IdIsClosedForm(n: nat, slot: nat)
    requires slot < NENV
    ensures IdAfter(n, slot) == ClosedForm(n, slot)
  {
    if n >= 2 {
      IdIsClosedForm(n - 1, slot);
      NextFromGeneration((n - 2) % PERIOD + 1, slot);
      StepMod(n - 2);
    } else if n == 1 {
      assert IdAfter(0, slot) == 0;
      assert NextId(0, slot) == ENVGENSTEP + slot;
    }
  }

  lemma StepMod(k: nat)
    ensures (k + 1) % PERIOD == if k % PERIOD == PERIOD - 1 then 0 else k % PERIOD + 1
  {
  }

  // Every identifier handed out is a positive int32_t that names its slot.
  lemma IdShape(n: nat, slot: nat)
    requires 1 <= n && slot < NENV
    ensures 0 < IdAfter(n, slot) < TWO31 && Envx(IdAfter(n, slot)) == slot
  {
    IdIsClosedForm(n, slot);
  }

  // Two allocations share an identifier exactly when they are of one slot and a multiple of
  // PERIOD allocations apart.
  lemma IdsCollideIff(m: nat, n: nat, slot: nat, other: nat)
    requires 1 <= m <= n && slot < NENV && other < NENV
    ensures IdAfter(m, slot) == IdAfter(n, other) <==> slot == other && (n - m) % PERIOD == 0
  {
    IdShape(m, slot);
    IdShape(n, other);
    IdIsClosedForm(m, slot);
    IdIsClosedForm(n, other);
    if slot == other {
      ModDiff(m - 1, n - 1);
    }
  }

  lemma ModDiff(a: nat, b: nat)
    requires a <= b
    ensures a % PERIOD == b % PERIOD <==> (b - a) % PERIOD == 0
  {
  }
}
