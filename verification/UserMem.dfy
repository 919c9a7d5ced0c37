/** user_mem_check: which pages it examines and what its answer means. */
module UserMem {
  import opened Bits
  import opened Mmu
  import opened VmState
  import opened Translation

  const ULIM_VPN: nat := 0xEF800
  const E_FAULT: int := 6

  // The page is below ULIM and its entry has every bit of perm (and PTE_P).
  ghost predicate PageOk(s: Vm, dir: nat, v: nat, perm: nat) {
    v < ULIM_VPN && Leaf(s, dir, v).Some? && HasBitsOf(Leaf(s, dir, v).value.flags, perm)
  }

  // The loop's bounds as page numbers, with the 32-bit wrap of va + len and of ROUNDUP.
  function FirstPage(va: Word): nat { RoundDown(va, PGSIZE) / PGSIZE }

  function EndPage(va: Word, len: Word): nat { RoundUp((va + len) % TWO32, PGSIZE) / PGSIZE }

  // The pages that contain a byte of [va, va + len), in unbounded arithmetic, end before TrueEnd.
  function TrueEnd(va: Word, len: Word): nat {
    if len == 0 then FirstPage(va) else (va + len - 1) / PGSIZE + 1
  }

  lemma TouchedPages(va: Word, len: Word, v: nat)
    ensures FirstPage(va) <= v < TrueEnd(va, len) <==> exists a: nat :: va <= a < va + len && a / PGSIZE == v
  {
    assert FirstPage(va) == va / PGSIZE by { Quotients(va, len); }
    if FirstPage(va) <= v < TrueEnd(va, len) {
      var a := if v * PGSIZE < va then va else v * PGSIZE;
      assert va <= a < va + len && a / PGSIZE == v;
    }
  }

  predicate Wraps(va: Word, len: Word) { va + len + PGSIZE - 1 >= TWO32 }

  lemma Bounds(va: Word, len: Word)
    ensures FirstPage(va) == va / PGSIZE
    ensures !Wraps(va, len) && (len > 0 || va % PGSIZE == 0) ==> EndPage(va, len) == TrueEnd(va, len)
    ensures !Wraps(va, len) && len == 0 && va % PGSIZE != 0 ==> EndPage(va, len) == FirstPage(va) + 1
    ensures !Wraps(va, len) ==> len / PGSIZE <= EndPage(va, len) - FirstPage(va) <= len / PGSIZE + 2
    ensures Wraps(va, len) ==> EndPage(va, len) <= FirstPage(va) + 1
    ensures Wraps(va, len) && len > 0 ==> FirstPage(va) < 0x10_0000 <= TrueEnd(va, len)
    ensures Wraps(va, len) && len == 0 ==> EndPage(va, len) == 0
  {
    hide RoundUp;
    var sum := va + len;
    Quotients(va, len);
    Ends(va, len);
    if sum < TWO32 {
      assert sum % TWO32 == sum;
      Rounded(sum);
    } else {
      assert sum % TWO32 == sum - TWO32;
      Rounded(sum - TWO32);
    }
  }

  lemma Ends(va: Word, len: Word)
    ensures len > 0 ==> (va + len - 1) / PGSIZE + 1 == (va + len + PGSIZE - 1) / PGSIZE
    ensures (va + PGSIZE - 1) / PGSIZE == va / PGSIZE + if va % PGSIZE == 0 then 0 else 1
  {}

  lemma Rounded(a: Word)
    ensures RoundUp(a, PGSIZE) / PGSIZE == if a + PGSIZE - 1 < TWO32 then (a + PGSIZE - 1) / PGSIZE else 0
  {
    var b := a + PGSIZE - 1;
    if b < TWO32 {
      assert b % TWO32 == b;
    } else {
      assert b % TWO32 == b - TWO32;
    }
  }

  lemma Quotients(va: Word, len: Word)
    ensures (va - va % PGSIZE) / PGSIZE == va / PGSIZE
    ensures len / PGSIZE <= (va + len + PGSIZE - 1) / PGSIZE - va / PGSIZE <= len / PGSIZE + 2
    ensures va + len >= TWO32 ==> (va + len - TWO32 + PGSIZE - 1) / PGSIZE <= va / PGSIZE + 1
  {}

  // The bounds of a range from the user stack to the top of the address space: no page is examined.
  lemma WrappedBounds()
    ensures FirstPage(0xEEBF_D000) == 0xEEBFD && EndPage(0xEEBF_D000, 0x1140_2FFF) == 0
    ensures TrueEnd(0xEEBF_D000, 0x1140_2FFF) == 0x10_0000
  {}

  lemma {:induction false} AndLow(w: nat, m: nat, k: nat)
    requires m < Pow2(k)
    ensures And(w, m) == And(w % Pow2(k), m)
  {
    if k == 0 {
      AndZero(w);
    } else {
      ModDouble(w, Pow2(k - 1));
      AndLow(w / 2, m / 2, k - 1);
      AndStep(w, m);
      AndStep(w % Pow2(k), m);
    }
  }

  lemma AndZero(w: nat)
    ensures And(w, 0) == 0 && And(0, w) == 0
  {}

  lemma AndStep(w: nat, m: nat)
    ensures And(w, m) == 2 * And(w / 2, m / 2) + (w % 2) * (m % 2)
  {
    AndZero(w / 2);
    AndZero(m / 2);
  }

  // Where the search stops: the first page that fails, or the end.
  ghost predicate FirstBad(s: Vm, dir: nat, perm: nat, first: nat, bad: nat) {
    && first <= bad && !PageOk(s, dir, bad, perm)
    && forall v: nat :: first <= v < bad ==> PageOk(s, dir, v, perm)
  }

  // (*pte & perm) == perm, on the stored word and on its flag bits.
  lemma PermTest(w: Word, perm: nat)
    requires perm < 0x1000
    ensures And(w, perm) == perm <==> HasBitsOf(PGOFF(w), perm)
  {
    Powers();
    AndLow(w, perm, 12);
    Fields(w);
    AndCovers(PGOFF(w), perm);
  }
}
