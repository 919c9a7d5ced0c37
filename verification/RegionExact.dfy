/** Exactly how many free pages region_alloc needs, whatever is mapped and in whatever order its regions
    overlap: before each page, the pages free at the start, plus the pages the loop has freed by replacing
    their last mapping, less the distinct pages and the page tables it has taken. */
module RegionExact {
  import opened Wrappers
  import opened Sets
  import opened VmState
  import opened VmInvariant
  import opened AddressSpace
  import opened Translation
  import opened Teardown
  import opened Lifetime
  import opened BootMap
  import opened RegionCost

  // -------------------------------------------------------------------------
  // Pages visited one after another
  // -------------------------------------------------------------------------

  // region_alloc's round for page v: the new state, and whether page_insert succeeded.
  function Visit(s: Vm, dir: nat, v: nat): (Vm, bool)
    requires s.free != []
  {
    Insert(PageAlloc(s, false).0, dir, s.free[0], v, TABLE_FLAGS)
  }

  function AllocPages(s: Vm, dir: nat, vs: seq<nat>): Option<Vm>
    decreases |vs|
  {
    if vs == [] then Some(s)
    else if s.free == [] then None
    else AllocPages(Visit(s, dir, vs[0]).0, dir, vs[1..])
  }

  // The pages taken and not mapped on the way.
  ghost function Lost(s: Vm, dir: nat, vs: seq<nat>): set<nat>
    decreases |vs|
  {
    if vs == [] || s.free == [] then {}
    else
      var (s1, ok) := Visit(s, dir, vs[0]);
      Lost(s1, dir, vs[1..]) + if ok then {} else {s.free[0]}
  }

  function Upto(lo: nat, hi: nat): seq<nat>
    decreases hi - lo
  {
    if lo >= hi then [] else [lo] + Upto(lo + 1, hi)
  }

  function Visits(rs: seq<(nat, nat)>): seq<nat> {
    if rs == [] then [] else Upto(rs[0].0, rs[0].1) + Visits(rs[1..])
  }

  lemma {:induction false} RegionIsVisits(s: Vm, dir: nat, lo: nat, hi: nat)
    ensures RegionAlloc(s, dir, lo, hi) == AllocPages(s, dir, Upto(lo, hi))
    ensures RegionLeaks(s, dir, lo, hi) == Lost(s, dir, Upto(lo, hi))
    decreases hi - lo
  {
    hide Insert;
    if lo < hi {
      assert Upto(lo, hi)[1..] == Upto(lo + 1, hi);
      if s.free != [] {
        RegionIsVisits(Visit(s, dir, lo).0, dir, lo + 1, hi);
      }
    }
  }

  lemma {:induction false} VisitsJoin(s: Vm, dir: nat, a: seq<nat>, b: seq<nat>)
    ensures var r := AllocPages(s, dir, a);
      && AllocPages(s, dir, a + b) == (if r.None? then None else AllocPages(r.value, dir, b))
      && Lost(s, dir, a + b) == Lost(s, dir, a) + if r.None? then {} else Lost(r.value, dir, b)
    decreases |a|
  {
    hide Visit;
    if a == [] {
      assert a + b == b;
    } else {
      assert (a + b)[1..] == a[1..] + b;
      if s.free != [] {
        VisitsJoin(Visit(s, dir, a[0]).0, dir, a[1..], b);
      }
    }
  }

  lemma {:induction false} RegionsAreVisits(s: Vm, dir: nat, rs: seq<(nat, nat)>)
    ensures Regions(s, dir, rs) == AllocPages(s, dir, Visits(rs))
    ensures Leaks(s, dir, rs) == Lost(s, dir, Visits(rs))
    decreases |rs|
  {
    hide RegionAlloc, RegionLeaks, AllocPages, Lost;
    if rs == [] {
      NoVisits(s, dir);
    } else {
      var lo, hi := rs[0].0, rs[0].1;
      RegionIsVisits(s, dir, lo, hi);
      VisitsJoin(s, dir, Upto(lo, hi), Visits(rs[1..]));
      if RegionAlloc(s, dir, lo, hi).Some? {
        RegionsAreVisits(RegionAlloc(s, dir, lo, hi).value, dir, rs[1..]);
      }
    }
  }

  lemma NoVisits(s: Vm, dir: nat)
    ensures AllocPages(s, dir, []) == Some(s) && Lost(s, dir, []) == {}
  {}

  // -------------------------------------------------------------------------
  // What has been taken, and given back
  // -------------------------------------------------------------------------

  ghost function Seen(vs: seq<nat>, k: nat): set<nat>
    requires k <= |vs|
  {
    set i | 0 <= i < k :: vs[i]
  }

  // The pages that are mapped, and only in dir at pages of V: mapping all of V anew frees them.
  ghost function Recovered(s: Vm, dir: nat, V: set<nat>): set<nat> {
    set p | p in s.pool && MappingsOf(s, p) != {} && OnlyIn(MappingsOf(s, p), dir, V)
  }

  ghost predicate OnlyIn(m: set<(nat, nat)>, dir: nat, V: set<nat>) {
    forall a :: a in m ==> a.0 == dir && a.1 in V
  }

  // The directory entries the pages of V lack.
  ghost function NewTables(s: Vm, dir: nat, V: set<nat>): set<nat> {
    set v | v in V && Slot(dir, Pdx(v)) !in s.ents :: Pdx(v)
  }

  // Before the k-th visit a page is left for the page itself and for its table, if that is missing.
  ghost predicate Enough(s: Vm, dir: nat, vs: seq<nat>, k: nat)
    requires k < |vs|
  {
    |s.free| + |Recovered(s, dir, Seen(vs, k))| >= |Seen(vs, k)| + 1 + |NewTables(s, dir, Seen(vs, k + 1))|
  }

  // At the last visit a page is left, but not one for the table that only this visit needs.
  ghost predicate LastTableShort(s: Vm, dir: nat, vs: seq<nat>) {
    && vs != []
    && var n := |vs| - 1;
       && |s.free| + |Recovered(s, dir, Seen(vs, n))| == |Seen(vs, n)| + |NewTables(s, dir, Seen(vs, n + 1))|
       && Slot(dir, Pdx(vs[n])) !in s.ents && forall i :: 0 <= i < n ==> Pdx(vs[i]) != Pdx(vs[n])
  }

  // -------------------------------------------------------------------------
  // One visit
  // -------------------------------------------------------------------------

  // Only the mapping of v in dir changes, to the fresh page p.
  ghost predicate Remapped(s: Vm, s1: Vm, dir: nat, v: nat, p: nat) {
    && Roots(s1) == Roots(s) && s1.pool == s.pool
    && forall d, x: nat :: d in Roots(s) && x < USER_VPNS ==>
         Leaf(s1, d, x) == if d == dir && x == v then Some(Ent(p, TABLE_FLAGS)) else Leaf(s, d, x)
  }

  lemma VisitTakes(s: Vm, dir: nat, v: nat)
    requires Inv(s) && dir in s.dirs && v < USER_VPNS && s.free != []
    ensures var (s1, ok) := Visit(s, dir, v);
      var missing := Slot(dir, Pdx(v)) !in s.ents;
      && Inv(s1) && dir in s1.dirs
      && (ok <==> !missing || |s.free| >= 2)
      && (!ok ==> s1.free == [])
      && (ok ==> TablesAdded(s, s1, dir, v, v + 1))
      && (ok ==> |s1.free| == |s.free| - 1 - (if missing then 1 else 0) + if SoleMapping(s, dir, v) then 1 else 0)
  {
    hide Inv, Insert, TablesAdded, SoleMapping, Leaf;
    RoundTakes(s, dir, v);
  }

  lemma VisitRemaps(s: Vm, dir: nat, v: nat)
    requires Inv(s) && dir in s.dirs && v < USER_VPNS && s.free != [] && Visit(s, dir, v).1
    ensures Remapped(s, Visit(s, dir, v).0, dir, v, s.free[0])
  {
    hide Inv, Insert, Leaf, CanInsert, OnlyDir, Held;
    var s1 := PageAlloc(s, false).0;
    RegionStep(s, dir, v);
    OnlyDirPool(s, Visit(s, dir, v).0, dir);
    AllocLeaves(s);
    InsertUpdatesMap(s1, dir, s.free[0], v, TABLE_FLAGS);
  }

  lemma RemappedPages(s: Vm, s1: Vm, dir: nat, v: nat, p: nat, q: nat)
    requires Remapped(s, s1, dir, v, p) && dir in Roots(s) && v < USER_VPNS
    ensures MappingsOf(s1, q) == MappingsOf(s, q) - {(dir, v)} + if q == p then {(dir, v)} else {}
  {
    hide Leaf;
    forall a: (nat, nat)
      ensures a in MappingsOf(s1, q) <==> a in MappingsOf(s, q) - {(dir, v)} + if q == p then {(dir, v)} else {}
    {
    }
  }

  // The page mapped at v and nowhere else, if there is one.
  ghost function Sole(s: Vm, dir: nat, v: nat): set<nat> {
    set q | q in s.pool && MappingsOf(s, q) == {(dir, v)}
  }

  lemma SoleCard(s: Vm, dir: nat, v: nat)
    requires Inv(s) && dir in Roots(s) && v < USER_VPNS
    ensures |Sole(s, dir, v)| == if SoleMapping(s, dir, v) then 1 else 0
  {
    LeafInPool(s, dir, v);
    var e := Leaf(s, dir, v);
    hide Inv, Leaf;
    forall q | q in Sole(s, dir, v) ensures e.Some? && e.value.page == q {
      assert (dir, v) in MappingsOf(s, q);
    }
    if e.Some? {
      var q := e.value.page;
      RefCountsMappings(s, q);
      assert (dir, v) in MappingsOf(s, q);
      if Ref(s, q) == 1 {
        OneElement(MappingsOf(s, q), (dir, v));
        assert Sole(s, dir, v) == {q};
      } else {
        assert Sole(s, dir, v) == {};
      }
    } else {
      assert Sole(s, dir, v) == {};
    }
  }

  lemma OneElement<T>(m: set<T>, x: T)
    requires |m| == 1 && x in m
    ensures m == {x}
  {
    CardMono({x}, m);
    if m != {x} {
      var y :| y in m && y != x;
      CardStrict({x}, m, y);
    }
  }

  lemma HeadUnmapped(s: Vm)
    requires Inv(s) && s.free != []
    ensures MappingsOf(s, s.free[0]) == {} && s.free[0] in s.pool
  {
    var p := s.free[0];
    assert p in s.free;
    RefCountsMappings(s, p);
    assert Ref(s, p) == 0;
  }

  // Visiting v first, and then the pages of W: what is recovered in the end.
  lemma RecoveredStep(s: Vm, s1: Vm, dir: nat, v: nat, p: nat, W: set<nat>)
    requires Remapped(s, s1, dir, v, p) && dir in Roots(s) && v < USER_VPNS
    requires MappingsOf(s, p) == {} && p in s.pool
    ensures Recovered(s1, dir, W) == Recovered(s, dir, W + {v}) - Sole(s, dir, v) + if v in W then {p} else {}
    ensures Sole(s, dir, v) <= Recovered(s, dir, W + {v}) && p !in Recovered(s, dir, W + {v})
  {
    hide Leaf, MappingsOf;
    var V := W + {v};
    forall q | q in s.pool
      ensures q in Recovered(s1, dir, W) <==>
              q in Recovered(s, dir, V) - Sole(s, dir, v) + if v in W then {p} else {}
    {
      RemappedPages(s, s1, dir, v, p, q);
      if q == p {
        assert (dir, v) in MappingsOf(s1, q);
      } else {
        PageStep(MappingsOf(s, q), MappingsOf(s1, q), dir, v, W);
        OtherMapping(s, s1, dir, v, p, q);
      }
    }
  }

  // v's mapping names one page only: either q is it, or q keeps all its mappings.
  lemma OtherMapping(s: Vm, s1: Vm, dir: nat, v: nat, p: nat, q: nat)
    requires MappingsOf(s1, q) == MappingsOf(s, q) - {(dir, v)}
    ensures MappingsOf(s1, q) == {} <==> MappingsOf(s, q) == {} || MappingsOf(s, q) == {(dir, v)}
  {
    hide MappingsOf;
  }

  // Within V with v's own mapping taken away is within W, but for v in W.
  lemma PageStep(m: set<(nat, nat)>, m1: set<(nat, nat)>, dir: nat, v: nat, W: set<nat>)
    requires m1 == m - {(dir, v)}
    ensures OnlyIn(m, dir, W + {v}) <==> OnlyIn(m1, dir, W)
  {
    if OnlyIn(m1, dir, W) {
      forall a | a in m ensures a.0 == dir && a.1 in W + {v} {
        assert a == (dir, v) || a in m1;
      }
    }
    if OnlyIn(m, dir, W + {v}) {
      forall a | a in m1 ensures a.0 == dir && a.1 in W {
        assert a == (a.0, a.1);
      }
    }
  }

  ghost function Balance(s: Vm, dir: nat, V: set<nat>): int {
    |s.free| + |Recovered(s, dir, V)| - |V|
  }

  lemma BalanceStep(s: Vm, dir: nat, v: nat, W: set<nat>)
    requires Inv(s) && dir in s.dirs && v < USER_VPNS && s.free != [] && Visit(s, dir, v).1
    ensures Balance(s, dir, W + {v}) ==
            Balance(Visit(s, dir, v).0, dir, W) + if Slot(dir, Pdx(v)) in s.ents then 0 else 1
  {
    hide Inv, Visit, Recovered, Sole, MappingsOf, Remapped, SoleMapping, TablesAdded;
    var s1, p := Visit(s, dir, v).0, s.free[0];
    VisitTakes(s, dir, v);
    VisitRemaps(s, dir, v);
    HeadUnmapped(s);
    SoleCard(s, dir, v);
    RecoveredStep(s, s1, dir, v, p, W);
    RecoveredCard(Recovered(s, dir, W + {v}), Recovered(s1, dir, W), Sole(s, dir, v), p, v, W);
  }

  lemma RecoveredCard(R: set<nat>, R1: set<nat>, S: set<nat>, p: nat, v: nat, W: set<nat>)
    requires R1 == R - S + (if v in W then {p} else {}) && S <= R && p !in R
    ensures |R1| - |W| == |R| - |S| - |W + {v}| + 1
  {
    assert |R - S| == |R| - |S|;
    if v in W {
      assert W + {v} == W;
    } else {
      assert R1 == R - S;
    }
  }

  lemma NewTablesStep(s: Vm, s1: Vm, dir: nat, v: nat, W: set<nat>)
    requires TablesAdded(s, s1, dir, v, v + 1)
    ensures |NewTables(s, dir, W + {v})| == |NewTables(s1, dir, W)| + if Slot(dir, Pdx(v)) in s.ents then 0 else 1
  {
    var a, b := NewTables(s, dir, W + {v}), NewTables(s1, dir, W);
    forall d ensures d in a <==> d in b || (d == Pdx(v) && Slot(dir, d) !in s.ents) {
      NewTablesMember(s, dir, W + {v}, d);
      NewTablesMember(s1, dir, W, d);
      hide NewTables;
      if d in a && d != Pdx(v) {
        var x :| x in W + {v} && Pdx(x) == d && Slot(dir, d) !in s.ents;
        assert x in W;
      }
    }
    if Slot(dir, Pdx(v)) in s.ents {
      assert a == b;
    } else {
      assert a == b + {Pdx(v)};
    }
  }

  lemma NewTablesMember(s: Vm, dir: nat, V: set<nat>, d: nat)
    ensures d in NewTables(s, dir, V) <==> exists v :: v in V && Pdx(v) == d && Slot(dir, d) !in s.ents
  {}

  lemma SeenStep(vs: seq<nat>, k: nat)
    requires vs != [] && k < |vs|
    ensures Seen(vs, k + 1) == Seen(vs[1..], k) + {vs[0]}
  {
    forall x | x in Seen(vs, k + 1) ensures x in Seen(vs[1..], k) + {vs[0]} {
      var i :| 0 <= i < k + 1 && vs[i] == x;
      assert i > 0 ==> vs[1..][i - 1] == x;
    }
    forall x | x in Seen(vs[1..], k) ensures x in Seen(vs, k + 1) {
      var i :| 0 <= i < k && vs[1..][i] == x;
      assert vs[i + 1] == x;
    }
    assert vs[0] in Seen(vs, k + 1);
  }

  lemma EnoughStep(s: Vm, dir: nat, vs: seq<nat>, k: nat)
    requires Inv(s) && dir in s.dirs && vs != [] && vs[0] < USER_VPNS && s.free != [] && Visit(s, dir, vs[0]).1
    requires k + 1 < |vs|
    ensures Enough(s, dir, vs, k + 1) <==> Enough(Visit(s, dir, vs[0]).0, dir, vs[1..], k)
  {
    hide Inv, Visit, Seen, Recovered, NewTables, TablesAdded, SoleMapping;
    var s1 := Visit(s, dir, vs[0]).0;
    SeenStep(vs, k);
    SeenStep(vs, k + 1);
    BalanceStep(s, dir, vs[0], Seen(vs[1..], k));
    VisitTakes(s, dir, vs[0]);
    NewTablesStep(s, s1, dir, vs[0], Seen(vs[1..], k + 1));
  }

  lemma ShortStep(s: Vm, dir: nat, vs: seq<nat>)
    requires Inv(s) && dir in s.dirs && |vs| >= 2 && vs[0] < USER_VPNS && s.free != [] && Visit(s, dir, vs[0]).1
    ensures LastTableShort(s, dir, vs) <==> LastTableShort(Visit(s, dir, vs[0]).0, dir, vs[1..])
  {
    hide Inv, Visit, Seen, Recovered, NewTables, SoleMapping;
    var s1, n, rest := Visit(s, dir, vs[0]).0, |vs| - 1, vs[1..];
    SeenStep(vs, n - 1);
    SeenStep(vs, n);
    BalanceStep(s, dir, vs[0], Seen(rest, n - 1));
    VisitTakes(s, dir, vs[0]);
    NewTablesStep(s, s1, dir, vs[0], Seen(rest, n));
    assert rest[n - 1] == vs[n];
    assert forall i :: 0 <= i < n - 1 ==> rest[i] == vs[i + 1];
    if forall i :: 0 <= i < n - 1 ==> Pdx(rest[i]) != Pdx(vs[n]) {
      forall i | 0 < i < n ensures Pdx(vs[i]) != Pdx(vs[n]) {
        assert rest[i - 1] == vs[i];
      }
    }
  }

  lemma NoneIn(s: Vm, dir: nat)
    ensures Recovered(s, dir, {}) == {}
  {
    hide MappingsOf;
    forall p | OnlyIn(MappingsOf(s, p), dir, {}) ensures MappingsOf(s, p) == {} {
      forall a ensures a !in MappingsOf(s, p) {
      }
    }
  }

  // The first visit: nothing has been taken or given back.
  lemma FirstVisit(s: Vm, dir: nat, vs: seq<nat>)
    requires vs != []
    ensures var m := if Slot(dir, Pdx(vs[0])) in s.ents then 0 else 1;
      && (Enough(s, dir, vs, 0) <==> |s.free| >= 1 + m)
      && (|vs| == 1 ==> (LastTableShort(s, dir, vs) <==> |s.free| == m == 1))
  {
    assert Seen(vs, 0) == {} && Seen(vs, 1) == {vs[0]};
    NoneIn(s, dir);
    assert NewTables(s, dir, {vs[0]}) == if Slot(dir, Pdx(vs[0])) in s.ents then {} else {Pdx(vs[0])};
  }

  // region_alloc's three ends: it succeeds, it returns but has lost a page, or it panics.
  ghost predicate EndsAsCounted(s: Vm, dir: nat, vs: seq<nat>) {
    var r, lost := AllocPages(s, dir, vs), Lost(s, dir, vs);
    && (r.Some? && lost == {} <==> EnoughTo(s, dir, vs, |vs|))
    && (r.Some? && lost != {} <==> LastTableShort(s, dir, vs) && EnoughTo(s, dir, vs, |vs| - 1))
  }

  ghost predicate EnoughTo(s: Vm, dir: nat, vs: seq<nat>, n: int)
    requires n <= |vs|
  {
    forall k: nat :: k < n ==> Enough(s, dir, vs, k)
  }

  lemma EnoughToStep(s: Vm, dir: nat, vs: seq<nat>, n: int)
    requires Inv(s) && dir in s.dirs && vs != [] && vs[0] < USER_VPNS && s.free != [] && Visit(s, dir, vs[0]).1
    requires 1 <= n <= |vs|
    ensures EnoughTo(s, dir, vs, n) <==> EnoughTo(Visit(s, dir, vs[0]).0, dir, vs[1..], n - 1)
  {
    hide Inv, Enough, Visit;
    var s1 := Visit(s, dir, vs[0]).0;
    forall k: nat | k < n - 1 ensures Enough(s, dir, vs, k + 1) <==> Enough(s1, dir, vs[1..], k) {
      EnoughStep(s, dir, vs, k);
    }
    VisitTakes(s, dir, vs[0]);
    FirstVisit(s, dir, vs);
    if EnoughTo(s1, dir, vs[1..], n - 1) {
      forall k: nat | 0 < k < n ensures Enough(s, dir, vs, k) {
        assert Enough(s1, dir, vs[1..], k - 1);
      }
    }
  }

  lemma {:induction false} VisitsEnd(s: Vm, dir: nat, vs: seq<nat>)
    requires Inv(s) && dir in s.dirs && forall v :: v in vs ==> v < USER_VPNS
    ensures EndsAsCounted(s, dir, vs)
    decreases |vs|
  {
    hide Inv, Enough, LastTableShort, Visit, TablesAdded, SoleMapping;
    if vs != [] {
      FirstVisit(s, dir, vs);
      assert vs[0] in vs;
      if s.free == [] {
        NothingLeft(s, dir, vs);
      } else {
        VisitTakes(s, dir, vs[0]);
        var (s1, ok) := Visit(s, dir, vs[0]);
        if !ok {
          LastLost(s, dir, vs);
        } else {
          EnoughToStep(s, dir, vs, |vs|);
          assert forall v :: v in vs[1..] ==> v in vs;
          VisitsEnd(s1, dir, vs[1..]);
          if |vs| == 1 {
            NoVisits(s1, dir);
            ShortNone(s1, dir);
          } else {
            EnoughToStep(s, dir, vs, |vs| - 1);
            ShortStep(s, dir, vs);
          }
        }
      }
    } else {
      ShortNone(s, dir);
    }
  }

  lemma ShortNone(s: Vm, dir: nat)
    ensures !LastTableShort(s, dir, [])
  {}

  lemma NothingLeft(s: Vm, dir: nat, vs: seq<nat>)
    requires vs != [] && s.free == [] && !Enough(s, dir, vs, 0)
    requires |vs| == 1 ==> !LastTableShort(s, dir, vs)
    ensures EndsAsCounted(s, dir, vs)
  {
    hide Enough, LastTableShort;
    assert AllocPages(s, dir, vs) == None;
    assert !EnoughTo(s, dir, vs, |vs|);
    assert |vs| > 1 ==> !EnoughTo(s, dir, vs, |vs| - 1);
  }

  lemma LastLost(s: Vm, dir: nat, vs: seq<nat>)
    requires vs != [] && s.free != [] && !Visit(s, dir, vs[0]).1 && Visit(s, dir, vs[0]).0.free == []
    requires !Enough(s, dir, vs, 0) && (|vs| == 1 ==> LastTableShort(s, dir, vs))
    ensures EndsAsCounted(s, dir, vs)
  {
    hide Enough, LastTableShort, Visit;
    var s1 := Visit(s, dir, vs[0]).0;
    assert s.free[0] in Lost(s, dir, vs);
    assert AllocPages(s, dir, vs) == AllocPages(s1, dir, vs[1..]);
    assert AllocPages(s1, dir, vs[1..]).Some? <==> |vs| == 1;
    assert !EnoughTo(s, dir, vs, |vs|);
    assert |vs| > 1 ==> !EnoughTo(s, dir, vs, |vs| - 1);
    assert |vs| == 1 ==> EnoughTo(s, dir, vs, |vs| - 1);
  }

  // -------------------------------------------------------------------------
  // One region
  // -------------------------------------------------------------------------

  function Between(lo: nat, hi: nat): (r: set<nat>)
    ensures forall v :: v in r <==> lo <= v < hi
    ensures |r| == if lo < hi then hi - lo else 0
  {
    if lo >= hi then {} else Between(lo, hi - 1) + {hi - 1}
  }

  // region_alloc on [lo, hi) before it comes to page v.
  ghost predicate EnoughAt(s: Vm, dir: nat, lo: nat, v: nat) {
    |s.free| + |Recovered(s, dir, Between(lo, v))| >= v - lo + 1 + |Missing(s, dir, lo, v + 1)|
  }

  // Enough is left before every page but the last, which needs a table of its own and finds one page only.
  ghost predicate LosesLast(s: Vm, dir: nat, lo: nat, hi: nat) {
    && lo < hi && (forall v: nat :: lo <= v < hi - 1 ==> EnoughAt(s, dir, lo, v))
    && |s.free| + |Recovered(s, dir, Between(lo, hi - 1))| == hi - 1 - lo + |Missing(s, dir, lo, hi)|
    && Slot(dir, Pdx(hi - 1)) !in s.ents && (hi - 1 == lo || Ptx(hi - 1) == 0)
  }

  // region_alloc succeeds exactly when enough is left before every page.  It loses a page exactly when only
  // the last page falls short, by the table that it alone needs; otherwise it panics.
  lemma RegionEnds(s: Vm, dir: nat, lo: nat, hi: nat)
    requires Inv(s) && dir in s.dirs && hi <= USER_VPNS
    ensures var r, leaks := RegionAlloc(s, dir, lo, hi), RegionLeaks(s, dir, lo, hi);
      && (r.Some? && leaks == {} <==> forall v: nat :: lo <= v < hi ==> EnoughAt(s, dir, lo, v))
      && (r.Some? && leaks != {} <==> LosesLast(s, dir, lo, hi))
  {
    var vs := Upto(lo, hi);
    UptoIs(lo, hi);
    RegionIsVisits(s, dir, lo, hi);
    VisitsEnd(s, dir, vs);
    hide Inv, RegionAlloc, RegionLeaks, AllocPages, Lost, Enough, EnoughAt, Recovered, Missing, NewTables, EnoughTo;
    RegionEnoughTo(s, dir, lo, hi, |vs|);
    if lo < hi {
      RegionEnoughTo(s, dir, lo, hi, |vs| - 1);
      RegionShort(s, dir, lo, hi);
    }
  }

  lemma RegionEnoughTo(s: Vm, dir: nat, lo: nat, hi: nat, n: nat)
    requires n <= |Upto(lo, hi)|
    ensures EnoughTo(s, dir, Upto(lo, hi), n) <==> forall v: nat :: lo <= v < lo + n ==> EnoughAt(s, dir, lo, v)
  {
    hide Enough, EnoughAt, Upto;
    var vs := Upto(lo, hi);
    forall k: nat | k < n ensures Enough(s, dir, vs, k) <==> EnoughAt(s, dir, lo, lo + k) {
      RegionEnough(s, dir, lo, hi, k);
    }
    if EnoughTo(s, dir, vs, n) {
      forall v: nat | lo <= v < lo + n ensures EnoughAt(s, dir, lo, v) {
        assert Enough(s, dir, vs, v - lo);
      }
    }
    if forall v: nat :: lo <= v < lo + n ==> EnoughAt(s, dir, lo, v) {
      forall k: nat | k < n ensures Enough(s, dir, vs, k) {
        assert EnoughAt(s, dir, lo, lo + k);
      }
    }
  }

  lemma {:induction false} UptoIs(lo: nat, hi: nat)
    ensures |Upto(lo, hi)| == if lo < hi then hi - lo else 0
    ensures forall k :: 0 <= k < |Upto(lo, hi)| ==> Upto(lo, hi)[k] == lo + k
    ensures forall v :: v in Upto(lo, hi) ==> lo <= v < hi
    decreases hi - lo
  {
    if lo < hi {
      UptoIs(lo + 1, hi);
    }
  }

  lemma RegionSeen(s: Vm, dir: nat, lo: nat, hi: nat, k: nat)
    requires k <= |Upto(lo, hi)|
    ensures Seen(Upto(lo, hi), k) == Between(lo, lo + k) && |Between(lo, lo + k)| == k
    ensures NewTables(s, dir, Between(lo, lo + k)) == Missing(s, dir, lo, lo + k)
  {
    UptoIs(lo, hi);
    var vs := Upto(lo, hi);
    forall v | v in Between(lo, lo + k) ensures v in Seen(vs, k) {
      assert vs[v - lo] == v;
    }
    var a, b := NewTables(s, dir, Between(lo, lo + k)), Missing(s, dir, lo, lo + k);
    forall d: nat ensures d in a <==> d in b {
      NewTablesMember(s, dir, Between(lo, lo + k), d);
      if k > 0 {
        TouchesIff(lo, lo + k, d);
        TouchesIn(lo, lo + k, d);
      }
    }
    assert a == b;
  }

  lemma TouchesIn(lo: nat, hi: nat, d: nat)
    ensures Touches(lo, hi, d) <==> exists v :: v in Between(lo, hi) && Pdx(v) == d
  {
    if Touches(lo, hi, d) {
      var v: nat :| lo <= v < hi && Pdx(v) == d;
      assert v in Between(lo, hi);
    }
  }

  lemma RegionEnough(s: Vm, dir: nat, lo: nat, hi: nat, k: nat)
    requires k < |Upto(lo, hi)|
    ensures Enough(s, dir, Upto(lo, hi), k) <==> EnoughAt(s, dir, lo, lo + k)
  {
    hide Seen, NewTables, Missing, Recovered;
    RegionSeen(s, dir, lo, hi, k);
    RegionSeen(s, dir, lo, hi, k + 1);
  }

  lemma RegionShort(s: Vm, dir: nat, lo: nat, hi: nat)
    requires lo < hi
    ensures LastTableShort(s, dir, Upto(lo, hi)) <==>
            && |s.free| + |Recovered(s, dir, Between(lo, hi - 1))| == hi - 1 - lo + |Missing(s, dir, lo, hi)|
            && Slot(dir, Pdx(hi - 1)) !in s.ents && (hi - 1 == lo || Ptx(hi - 1) == 0)
  {
    var vs, n := Upto(lo, hi), hi - 1 - lo;
    UptoIs(lo, hi);
    hide Upto, Seen, NewTables, Missing, Recovered, Pdx, Ptx, Between;
    RegionSeen(s, dir, lo, hi, n);
    RegionSeen(s, dir, lo, hi, n + 1);
    LastTableAlone(lo, hi, vs);
  }

  // The last page is the only one under its directory entry.
  lemma LastTableAlone(lo: nat, hi: nat, vs: seq<nat>)
    requires lo < hi && |vs| == hi - lo && forall k :: 0 <= k < |vs| ==> vs[k] == lo + k
    ensures (forall i :: 0 <= i < |vs| - 1 ==> Pdx(vs[i]) != Pdx(vs[|vs| - 1])) <==> hi - 1 == lo || Ptx(hi - 1) == 0
  {
    var n := |vs| - 1;
    if Ptx(hi - 1) != 0 && n > 0 {
      assert vs[n - 1] == hi - 2 && Pdx(hi - 2) == Pdx(hi - 1);
    }
  }

  // -------------------------------------------------------------------------
  // A whole life
  // -------------------------------------------------------------------------

  lemma {:induction false} VisitsBelow(rs: seq<(nat, nat)>)
    requires BelowUtop(rs)
    ensures forall v :: v in Visits(rs) ==> v < USER_VPNS
    decreases |rs|
  {
    if rs != [] {
      assert rs[0] in rs && forall r :: r in rs[1..] ==> r in rs;
      UptoIs(rs[0].0, rs[0].1);
      VisitsBelow(rs[1..]);
    }
  }

  function Entered(vs: seq<nat>, k: nat): set<nat>
    requires k <= |vs|
  {
    set i | 0 <= i < k :: Pdx(vs[i])
  }

  // In a new environment nothing is recovered: before each page the directory, the distinct pages so far,
  // the page itself and the tables up to it have to fit.
  ghost predicate FitsNew(free: nat, vs: seq<nat>) {
    forall k: nat :: k < |vs| ==> free >= 1 + |Seen(vs, k)| + 1 + |Entered(vs, k + 1)|
  }

  // Exactly then env_setup_vm and the region_alloc calls succeed, in whatever order the regions overlap.
  lemma LifetimeSucceedsIff(s0: Vm, rs: seq<(nat, nat)>)
    requires Inv(s0) && KernUserEmpty(s0) && BelowUtop(rs) && s0.free != []
    ensures var s1 := EnvSetup(s0).0;
      Regions(s1, s0.free[0], rs).Some? && Leaks(s1, s0.free[0], rs) == {} <==> FitsNew(|s0.free|, Visits(rs))
  {
    hide Inv, EnvSetup, Regions, Leaks, AllocPages, Lost, Visits, Enough, LastTableShort, Leaf, Seen, Entered;
    var s1, dir, vs := EnvSetup(s0).0, s0.free[0], Visits(rs);
    NewDirectory(s0, rs);
    VisitsBelow(rs);
    BareTables(s0);
    RegionsAreVisits(s1, dir, rs);
    VisitsEnd(s1, dir, vs);
    forall k: nat | k < |vs|
      ensures Enough(s1, dir, vs, k) <==> |s0.free| >= 1 + |Seen(vs, k)| + 1 + |Entered(vs, k + 1)|
    {
      NewEnough(s1, dir, vs, k);
    }
  }

  lemma BareTables(s: Vm)
    requires Inv(s) && KernUserEmpty(s) && s.free != []
    ensures forall d: nat :: d < USER_PDES ==> Slot(s.free[0], d) !in EnvSetup(s).0.ents
  {
    SetupAdds(s);
    TablesNamed(EnvSetup(s).0, s.free[0]);
    hide Inv, EnvSetup;
  }

  lemma NewEnough(s: Vm, dir: nat, vs: seq<nat>, k: nat)
    requires k < |vs| && forall v :: v in vs ==> v < USER_VPNS
    requires forall v: nat :: v < USER_VPNS ==> Leaf(s, dir, v) == None
    requires forall d: nat :: d < USER_PDES ==> Slot(dir, d) !in s.ents
    ensures Enough(s, dir, vs, k) <==> |s.free| >= |Seen(vs, k)| + 1 + |Entered(vs, k + 1)|
  {
    NothingRecovered(s, dir, Seen(vs, k));
    var a, b := NewTables(s, dir, Seen(vs, k + 1)), Entered(vs, k + 1);
    forall d ensures d in a <==> d in b {
      NewTablesMember(s, dir, Seen(vs, k + 1), d);
      hide Leaf;
      if d in b {
        var i :| 0 <= i < k + 1 && Pdx(vs[i]) == d;
        assert vs[i] in vs && vs[i] in Seen(vs, k + 1);
      }
    }
    assert a == b;
  }

  lemma NothingRecovered(s: Vm, dir: nat, V: set<nat>)
    requires forall v: nat :: v < USER_VPNS ==> Leaf(s, dir, v) == None
    ensures Recovered(s, dir, V) == {}
  {
    hide Leaf;
    forall p | OnlyIn(MappingsOf(s, p), dir, V) ensures MappingsOf(s, p) == {} {
      forall a ensures a !in MappingsOf(s, p) {
      }
    }
  }
}
