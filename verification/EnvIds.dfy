/** Environment ids: 32-bit generation arithmetic of env_alloc and how long an old id stays dead. */
module EnvIds {
  import opened Bits
  import opened Mmu

  const NENV: nat := 1024
  const ENVGEN: nat := 4096         // 1 << ENVGENSHIFT
  const CYCLE: nat := 524287        // generations before a slot's ids repeat

  // x & ~(NENV - 1) on two's complement.
  function ClearSlot(x: int): int { x - x % NENV }

  // id & (NENV - 1) on two's complement.
  function ENVX(id: int): nat { And(id % TWO32, 0x3FF) }

  lemma EnvxIsMod(id: int)
    ensures ENVX(id) == id % NENV < NENV
  {
    Powers();
    AndMask(id % TWO32, 10);
    assert TWO32 == NENV * 0x40_0000;
    var q := id / TWO32;
    assert id == TWO32 * q + id % TWO32;
    DivModUnique(id, NENV, 0x40_0000 * q + (id % TWO32) / NENV, (id % TWO32) % NENV);
  }

  // The generation env_alloc computes from the id left in the slot, and the id it stores.
  function Generation(id: int): nat {
    var g := ClearSlot(Int32(id + ENVGEN));
    if g <= 0 then ENVGEN else g
  }

  function NextId(id: int, slot: nat): int { Or(Generation(id), slot) }

  // The id of a slot after n allocations, in closed form.
  function IdAfter(n: nat, slot: nat): int {
    if n == 0 then 0 else ((n - 1) % CYCLE + 1) * ENVGEN + slot
  }

  lemma Successor(n: nat, slot: nat)
    requires slot < NENV
    ensures NextId(IdAfter(n, slot), slot) == IdAfter(n + 1, slot)
  {
    var k := if n == 0 then 0 else (n - 1) % CYCLE + 1;
    var id := IdAfter(n, slot);
    var id0 := k * ENVGEN;
    assert id == id0 + if n == 0 then 0 else slot;
    if k == CYCLE {
      assert id + ENVGEN == 0x8000_0000 + slot;
      assert Int32(id + ENVGEN) == -0x8000_0000 + slot;
      assert Generation(id) == ENVGEN;
      assert n % CYCLE == 0 by { CycleStep(n); }
      GenOrSlot(1, slot);
    } else {
      assert id + ENVGEN < 0x8000_0000;
      assert Int32(id + ENVGEN) == id + ENVGEN;
      ClearsSlot(k + 1, if n == 0 then 0 else slot);
      assert Generation(id) == (k + 1) * ENVGEN;
      assert n % CYCLE == k by { CycleStep(n); }
      GenOrSlot(k + 1, slot);
    }
  }

  lemma CycleStep(n: nat)
    ensures n > 0 ==> n % CYCLE == if (n - 1) % CYCLE + 1 == CYCLE then 0 else (n - 1) % CYCLE + 1
  {}

  lemma ClearsSlot(k: nat, slot: nat)
    requires slot < NENV
    ensures ClearSlot(k * ENVGEN + slot) == k * ENVGEN
  {
    DivModUnique(k * ENVGEN + slot, NENV, 4 * k, slot);
  }

  lemma GenOrSlot(k: nat, slot: nat)
    requires slot < NENV
    ensures Or(k * ENVGEN, slot) == k * ENVGEN + slot
  {
    Powers();
    ShlIsProduct(4 * k, 10);
    OrDisjoint(4 * k, slot, 10);
  }

  // Every id a slot ever gets is positive and carries the slot in its low ten bits.
  lemma IdShape(n: nat, slot: nat)
    requires n > 0 && slot < NENV
    ensures 0 < IdAfter(n, slot) < 0x8000_0000 && ENVX(IdAfter(n, slot)) == slot
  {
    var k := (n - 1) % CYCLE + 1;
    EnvxIsMod(IdAfter(n, slot));
    DivModUnique(k * ENVGEN + slot, NENV, 4 * k, slot);
  }

  // Two allocations of a slot get the same id exactly when they are a multiple of 524287 apart: the
  // next 524286 reallocations all differ, the 524287th repeats it.
  lemma IdRepeatsIff(n: nat, m: nat, slot: nat)
    requires 0 < n <= m && slot < NENV
    ensures IdAfter(n, slot) == IdAfter(m, slot) <==> (m - n) % CYCLE == 0
  {
    var a, b := (n - 1) % CYCLE, (m - 1) % CYCLE;
    var qa, qb := (n - 1) / CYCLE, (m - 1) / CYCLE;
    assert m - n == CYCLE * (qb - qa) + (b - a);
    if a <= b {
      DivModUnique(m - n, CYCLE, qb - qa, b - a);
    } else {
      DivModUnique(m - n, CYCLE, qb - qa - 1, CYCLE + b - a);
    }
  }

  lemma StaleUntilCycle(n: nat, later: nat, slot: nat)
    requires 0 < n && slot < NENV && 0 < later < CYCLE
    ensures IdAfter(n + later, slot) != IdAfter(n, slot)
    ensures IdAfter(n + CYCLE, slot) == IdAfter(n, slot)
  {
    IdRepeatsIff(n, n + later, slot);
    IdRepeatsIff(n, n + CYCLE, slot);
  }
}
