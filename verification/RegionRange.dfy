/** region_alloc as its callers see it, by address and length: when it keeps its promise to map the range or
    to panic. */
module RegionRange {
  import opened Wrappers
  import opened Bits
  import opened VmState
  import opened VmInvariant
  import opened Translation
  import opened Lifetime
  import opened Isolation
  import opened UserMem
  import opened UserAccess
  import opened AddressSpace
  import opened RegionExact

  // Every page with a byte of [va, va + len) is mapped, writable for the user.
  ghost predicate MapsRange(s: Vm, dir: nat, va: Word, len: Word) {
    forall v: nat :: FirstPage(va) <= v < TrueEnd(va, len) ==>
      Leaf(s, dir, v).Some? && Leaf(s, dir, v).value.flags == TABLE_FLAGS
  }

  // What to check before the call.  Without wrap the loop runs over exactly the pages of the range, and only
  // losing the last one breaks the promise.  With wrap it runs over the first page at most, and only the
  // panic on that page keeps the promise.
  ghost predicate KeepsPromise(s: Vm, dir: nat, va: Word, len: Word) {
    var first, end := FirstPage(va), EndPage(va, len);
    if len == 0 then true
    else if Wraps(va, len) then first < end && s.free == []
    else !LosesLast(s, dir, first, end)
  }

  lemma PromiseIff(s: Vm, dir: nat, va: Word, len: Word)
    requires Kernel(s) && dir in s.dirs && EndPage(va, len) <= USER_VPNS
    ensures var r := RegionAlloc(s, dir, FirstPage(va), EndPage(va, len));
      (r.Some? ==> MapsRange(r.value, dir, va, len)) <==> KeepsPromise(s, dir, va, len)
  {
    hide FirstPage, EndPage, TrueEnd, Wraps, RegionAlloc, LosesLast, Inv, Shaped, KernUserEmpty;
    Bounds(va, len);
    var first, end := FirstPage(va), EndPage(va, len);
    var r := RegionAlloc(s, dir, first, end);
    if len == 0 {
      EmptyRange(va);
    } else {
      if r.Some? {
        RegionMaps(s, dir, first, end);
      }
      if Wraps(va, len) {
        OnePageAtMost(s, dir, first, end);
        if r.Some? {
          TopNotUser(s, r.value, dir, first, end, RegionLeaks(s, dir, first, end) != {});
          assert 0xF_FFFF < TrueEnd(va, len);
        }
      } else {
        RegionEnds(s, dir, first, end);
        if r.Some? {
          Complete(s, r.value, dir, va, len, RegionLeaks(s, dir, first, end) != {});
        }
      }
    }
  }

  lemma OnePageAtMost(s: Vm, dir: nat, first: nat, end: nat)
    requires end <= first + 1
    ensures RegionAlloc(s, dir, first, end).None? <==> first < end && s.free == []
  {
    hide Insert;
  }

  // The last page of the address space belongs to the kernel.
  lemma TopNotUser(s: Vm, s1: Vm, dir: nat, first: nat, end: nat, leaked: bool)
    requires Kernel(s) && dir in s.dirs && end <= USER_VPNS && RegionMapped(s, s1, dir, first, end, leaked)
    ensures !(Leaf(s1, dir, 0xF_FFFF).Some? && Leaf(s1, dir, 0xF_FFFF).value.flags == TABLE_FLAGS)
  {
    KernelLeaf(s, dir, 0xF_FFFF);
    hide Kernel, Leaf;
  }

  lemma Complete(s: Vm, s1: Vm, dir: nat, va: Word, len: Word, leaked: bool)
    requires RegionMapped(s, s1, dir, FirstPage(va), EndPage(va, len), leaked) && TrueEnd(va, len) == EndPage(va, len)
    ensures MapsRange(s1, dir, va, len) <==> !leaked
  {
    hide Leaf, FirstPage, EndPage, TrueEnd;
  }

  // A range whose rounded end wraps to just below its start: region_alloc returns without mapping a byte.
  lemma WrapExample(s: Vm, dir: nat)
    requires Kernel(s) && dir in s.dirs
    ensures var first, end := FirstPage(0x80_0000), EndPage(0x80_0000, 0xFFFF_F000);
      RegionAlloc(s, dir, first, end) == Some(s) && !MapsRange(s, dir, 0x80_0000, 0xFFFF_F000)
  {
    WrappedBounds();
    hide FirstPage, EndPage, MapsRange, Kernel;
    PromiseIff(s, dir, 0x80_0000, 0xFFFF_F000);
  }

  lemma WrappedBounds()
    ensures FirstPage(0x80_0000) == 0x800 && EndPage(0x80_0000, 0xFFFF_F000) == 0x7FF
    ensures Wraps(0x80_0000, 0xFFFF_F000)
  {}
}
