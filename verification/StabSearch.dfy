/** stab_binsearch: a binary search over the entries of one type in a mixed table, which moves its own
    key past an exact match.  It terminates on every table; on sorted tables it finds the bracket. */
module StabSearch {
  import opened Mmu
  import opened Bits
  import opened Sets

  datatype Stab = Stab(nType: int, nValue: Word)

  // One call: the table, the region [lo, hi], the type and the address searched for.
  datatype Query = Query(stabs: seq<Stab>, lo: int, hi: int, kind: int, addr: Word)

  // region_left, region_right, any_matches
  datatype Found = Found(left: int, right: int, any: bool)

  predicate Proper(q: Query) {
    0 <= q.lo && -1 <= q.hi < |q.stabs| < 0x4000_0000
  }

  predicate Is(q: Query, i: int)
    requires Proper(q)
  {
    q.lo <= i <= q.hi && q.stabs[i].nType == q.kind
  }

  // while (m >= l && stabs[m].n_type != type) m--;
  function ScanDown(q: Query, l: int, m: int): (r: int)
    requires Proper(q) && q.lo <= l && m <= q.hi
    ensures l - 1 <= r <= m || (m < l && r == m)
    ensures r >= l ==> Is(q, r)
    ensures forall i :: l <= i && r < i <= m ==> !Is(q, i)
    decreases m - l
  {
    if m >= l && q.stabs[m].nType != q.kind then ScanDown(q, l, m - 1) else m
  }

  // The key after k exact matches, and how far a value lies above the original key, on 32 bits.
  function Key(q: Query, k: nat): Word { (q.addr + k) % TWO32 }

  function Above(q: Query, v: Word): nat { (v - q.addr) % TWO32 }

  lemma KeyAbove(q: Query, k: nat, v: Word)
    requires k < TWO32
    ensures v == Key(q, k) <==> Above(q, v) == k
  {
    if q.addr + k >= TWO32 {
      assert (q.addr + k) % TWO32 == q.addr + k - TWO32;
    }
    if v < q.addr {
      assert (v - q.addr) % TWO32 == v - q.addr + TWO32;
    }
  }

  // The matching entries whose value the key has not reached yet.
  function Unseen(q: Query, k: nat): set<int>
    requires Proper(q)
  {
    set i | q.lo <= i <= q.hi && q.stabs[i].nType == q.kind && Above(q, q.stabs[i].nValue) >= k
  }

  // A range the search can be in: few enough exact matches so far that the key cannot come round.
  predicate Reachable(q: Query, l: int, r: int, k: nat) {
    Proper(q) && q.lo <= l && r <= q.hi && l <= r + 1 && k + |Unseen(q, k)| < 0x4000_0000
  }

  lemma ExactMatchSees(q: Query, l: int, r: int, k: nat, m: int)
    requires Reachable(q, l, r, k) && Is(q, m) && q.stabs[m].nValue == Key(q, k)
    ensures Unseen(q, k + 1) < Unseen(q, k)
    ensures |Unseen(q, k + 1)| < |Unseen(q, k)|
  {
    KeyAbove(q, k, q.stabs[m].nValue);
    assert m in Unseen(q, k) && m !in Unseen(q, k + 1);
    CardStrict(Unseen(q, k + 1), Unseen(q, k), m);
  }

  // The main loop from range [l, r] with k exact matches so far.
  function Loop(q: Query, l: int, r: int, k: nat, f: Found): Found
    requires Reachable(q, l, r, k)
    decreases r - l + 1 + |Unseen(q, k)|
  {
    if l > r then f
    else
      var mid := (l + r) / 2;
      var m := ScanDown(q, l, mid);
      if m < l then Loop(q, mid + 1, r, k, f)
      else if q.stabs[m].nValue < Key(q, k) then Loop(q, mid + 1, r, k, Found(m, f.right, true))
      else if q.stabs[m].nValue > Key(q, k) then Loop(q, l, m - 1, k, Found(f.left, m - 1, true))
      else
        ExactMatchSees(q, l, r, k, m);
        Loop(q, m, r, k + 1, Found(m, f.right, true))
  }

  // The closing loop: down from right to a matching entry, but not below left.
  function Settle(q: Query, left: int, l: int): int
    requires Proper(q) && q.lo <= left && l <= q.hi
    decreases l - left
  {
    if l > left && q.stabs[l].nType != q.kind then Settle(q, left, l - 1) else l
  }

  lemma FirstReachable(q: Query)
    requires Proper(q) && q.lo <= q.hi + 1
    ensures Reachable(q, q.lo, q.hi, 0)
  {
    CardMono(Unseen(q, 0), Range(q.lo, q.hi));
  }

  lemma {:induction false} LoopBounds(q: Query, l: int, r: int, k: nat, f: Found)
    requires Reachable(q, l, r, k) && q.lo <= f.left <= q.hi + 1 && f.right == r
    requires Proper(q) && q.lo <= l && r <= q.hi && l <= r + 1
    ensures var g := Loop(q, l, r, k, f); q.lo <= g.left <= q.hi + 1 && q.lo - 1 <= g.right <= q.hi
    decreases r - l + 1 + |Unseen(q, k)|
  {
    hide Reachable, Loop, Unseen, Key, ScanDown;
    LoopStep(q, l, r, k, f);
    if l <= r {
      var mid := (l + r) / 2;
      var m := ScanDown(q, l, mid);
      if m < l {
        LoopBounds(q, mid + 1, r, k, f);
      } else if Val(q, m) < Key(q, k) {
        LoopBounds(q, mid + 1, r, k, Found(m, f.right, true));
      } else if Val(q, m) > Key(q, k) {
        LoopBounds(q, l, m - 1, k, Found(f.left, m - 1, true));
      } else {
        LoopBounds(q, m, r, k + 1, Found(m, f.right, true));
      }
    }
  }

  // *region_left and *region_right on return.
  function Search(q: Query): (int, int)
    requires Proper(q)
  {
    if q.lo > q.hi then (q.lo, q.lo - 1)
    else
      FirstReachable(q);
      var f := Found(q.lo, q.hi, false);
      LoopBounds(q, q.lo, q.hi, 0, f);
      var g := Loop(q, q.lo, q.hi, 0, f);
      if !g.any then (g.left, g.left - 1) else (Settle(q, g.left, g.right), g.right)
  }

  // -------------------------------------------------------------------------
  // What it finds
  // -------------------------------------------------------------------------

  function Val(q: Query, i: int): Word
    requires Proper(q) && q.lo <= i <= q.hi
  {
    q.stabs[i].nValue
  }

  ghost predicate Sorted(q: Query)
    requires Proper(q)
  {
    forall i, j :: Is(q, i) && Is(q, j) && i < j ==> Val(q, i) <= Val(q, j)
  }

  // If addr is the value of an entry of the type, addr + 1 does not wrap and is the value of none.
  ghost predicate Clear(q: Query)
    requires Proper(q)
  {
    forall i, j :: Is(q, i) && Is(q, j) && Val(q, i) == q.addr ==> q.addr + 1 < TWO32 && Val(q, j) != q.addr + 1
  }

  // Where the search stands in range [l, r].
  ghost predicate Standing(q: Query, l: int, r: int, k: nat, f: Found)
    requires Proper(q)
  {
    && q.lo <= l <= r + 1 && r <= q.hi && k <= 1 && f.right == r && q.lo <= f.left <= q.hi
    && (forall i :: Is(q, i) && i < l ==> Val(q, i) <= q.addr)
    && (forall i :: Is(q, i) && i > r ==> Val(q, i) > q.addr)
    && (k == 1 ==> Is(q, f.left) && Val(q, f.left) == q.addr && f.left <= l)
    && (f.left == q.lo || (Is(q, f.left) && Val(q, f.left) <= q.addr))
    && (r == q.hi || Is(q, r + 1))
    && (f.any ==> exists i :: Is(q, i))
    && (!f.any ==> r == q.hi && forall i :: Is(q, i) ==> i >= l)
  }

  // Where it ends.
  ghost predicate Ended(q: Query, g: Found)
    requires Proper(q)
  {
    && q.lo - 1 <= g.right <= q.hi && q.lo <= g.left <= q.hi
    && (forall i :: Is(q, i) ==> (Val(q, i) <= q.addr <==> i <= g.right))
    && (g.left == q.lo || (Is(q, g.left) && Val(q, g.left) <= q.addr))
    && (g.right == q.hi || Is(q, g.right + 1))
    && (g.any <==> exists i :: Is(q, i))
  }

  // One probe: the middle, the matching entry at or below it, and the new range.
  lemma ProbeStanding(q: Query, l: int, r: int, k: nat, f: Found, mid: int, m: int)
    requires Proper(q) && Sorted(q) && Clear(q) && Standing(q, l, r, k, f)
    requires l <= mid <= r && m == ScanDown(q, l, mid)
    ensures Key(q, k) == q.addr + k
    ensures m < l ==> Standing(q, mid + 1, r, k, f)
    ensures m >= l && Val(q, m) < Key(q, k) ==> Standing(q, mid + 1, r, k, Found(m, f.right, true))
    ensures m >= l && Val(q, m) > Key(q, k) ==> Standing(q, l, m - 1, k, Found(f.left, m - 1, true))
    ensures m >= l && Val(q, m) == Key(q, k) ==> k == 0 && Standing(q, m, r, 1, Found(m, f.right, true))
  {
    hide ScanDown;
    assert Key(q, k) == q.addr + k;
    if m < l {
    } else if Val(q, m) < Key(q, k) {
      hide Key;
    } else if Val(q, m) > Key(q, k) {
      hide Key;
    }
  }

  lemma StandingEnds(q: Query, l: int, r: int, k: nat, f: Found)
    requires Proper(q) && Standing(q, l, r, k, f) && l > r
    ensures Ended(q, f)
  {}

  lemma LoopStep(q: Query, l: int, r: int, k: nat, f: Found)
    requires Reachable(q, l, r, k)
    ensures l > r ==> Loop(q, l, r, k, f) == f
    ensures l <= r ==>
      var m := ScanDown(q, l, (l + r) / 2);
      var next := (l + r) / 2 + 1;
      if m < l then
        Reachable(q, next, r, k) && Loop(q, l, r, k, f) == Loop(q, next, r, k, f)
      else if Val(q, m) < Key(q, k) then
        Reachable(q, next, r, k) && Loop(q, l, r, k, f) == Loop(q, next, r, k, Found(m, f.right, true))
      else if Val(q, m) > Key(q, k) then
        Reachable(q, l, m - 1, k) && Loop(q, l, r, k, f) == Loop(q, l, m - 1, k, Found(f.left, m - 1, true))
      else
        Reachable(q, m, r, k + 1) && |Unseen(q, k + 1)| < |Unseen(q, k)|
        && Loop(q, l, r, k, f) == Loop(q, m, r, k + 1, Found(m, f.right, true))
  {
    if l <= r {
      var m := ScanDown(q, l, (l + r) / 2);
      if m >= l && Val(q, m) == Key(q, k) {
        ExactMatchSees(q, l, r, k, m);
      }
    }
  }

  lemma LoopFinds(q: Query, l: int, r: int, k: nat, f: Found)
    requires Reachable(q, l, r, k) && Sorted(q) && Clear(q) && Standing(q, l, r, k, f)
    ensures Ended(q, Loop(q, l, r, k, f))
    decreases r - l + 1 + |Unseen(q, k)|
  {
    hide Standing, Ended, Sorted, Clear, Unseen, Key, Loop, ScanDown, Above;
    LoopStep(q, l, r, k, f);
    if l <= r {
      var mid := (l + r) / 2;
      var m := ScanDown(q, l, mid);
      ProbeStanding(q, l, r, k, f, mid, m);
      if m < l {
        LoopFinds(q, mid + 1, r, k, f);
      } else if Val(q, m) < Key(q, k) {
        LoopFinds(q, mid + 1, r, k, Found(m, f.right, true));
      } else if Val(q, m) > Key(q, k) {
        LoopFinds(q, l, m - 1, k, Found(f.left, m - 1, true));
      } else {
        LoopFinds(q, m, r, k + 1, Found(m, f.right, true));
      }
    } else {
      StandingEnds(q, l, r, k, f);
    }
  }

  lemma SettleFinds(q: Query, left: int, l: int)
    requires Proper(q) && q.lo <= left && l <= q.hi
    ensures var s := Settle(q, left, l);
      && s <= l && (l >= left ==> s >= left) && (l < left ==> s == l)
      && (s > left ==> Is(q, s))
      && forall i :: s < i <= l ==> !Is(q, i) || i <= left
    decreases l - left
  {}

  // What the search returns on a sorted region, case by case.
  ghost predicate Brackets(q: Query, left: int, right: int)
    requires Proper(q)
  {
    if !exists i :: Is(q, i) then left == q.lo && right == q.lo - 1
    else
      && (forall i :: Is(q, i) ==> (Val(q, i) <= q.addr <==> i <= right))
      && (right == q.hi || Is(q, right + 1))
      && if exists i :: Is(q, i) && Val(q, i) <= q.addr
         then Is(q, left) && Val(q, left) <= q.addr && forall i :: Is(q, i) && i > left ==> Val(q, i) > q.addr
         else left == if right < q.lo then right else q.lo
  }

  // left is the last matching entry at or below addr, and right ends just before the next matching
  // entry; without a matching entry the result is (left, left - 1).
  lemma SearchBrackets(q: Query)
    requires Proper(q) && Sorted(q) && Clear(q)
    ensures Brackets(q, Search(q).0, Search(q).1)
  {
    if q.lo <= q.hi {
      hide Reachable, Ended, Standing, Sorted, Clear, Brackets, Loop, Settle;
      FirstReachable(q);
      var f := Found(q.lo, q.hi, false);
      FirstStanding(q);
      LoopFinds(q, q.lo, q.hi, 0, f);
      EndedBrackets(q, Loop(q, q.lo, q.hi, 0, f));
    }
  }

  lemma FirstStanding(q: Query)
    requires Proper(q) && q.lo <= q.hi
    ensures Standing(q, q.lo, q.hi, 0, Found(q.lo, q.hi, false))
  {}

  lemma EndedBrackets(q: Query, g: Found)
    requires Proper(q) && Ended(q, g)
    ensures Brackets(q, if g.any then Settle(q, g.left, g.right) else g.left, if g.any then g.right else g.left - 1)
  {
    SettleFinds(q, g.left, g.right);
  }

  // any_matches while the range is [l, r]: set once an entry of the type has been met; until then none lies
  // below l and r is where it started.
  ghost predicate Noted(q: Query, l: int, r: int, f: Found)
    requires Proper(q)
  {
    && (f.any ==> exists i :: Is(q, i))
    && (!f.any ==> r == q.hi && forall i :: Is(q, i) ==> i >= l)
  }

  lemma {:induction false} LoopNotes(q: Query, l: int, r: int, k: nat, f: Found)
    requires Reachable(q, l, r, k) && Noted(q, l, r, f)
    ensures Loop(q, l, r, k, f).any <==> exists i :: Is(q, i)
    decreases r - l + 1 + |Unseen(q, k)|
  {
    hide Reachable, Loop, Unseen, Key, ScanDown;
    InRange(q, l, r, k);
    LoopStep(q, l, r, k, f);
    if l <= r {
      var mid := (l + r) / 2;
      var m := ScanDown(q, l, mid);
      if m < l {
        LoopNotes(q, mid + 1, r, k, f);
      } else if Val(q, m) < Key(q, k) {
        LoopNotes(q, mid + 1, r, k, Found(m, f.right, true));
      } else if Val(q, m) > Key(q, k) {
        LoopNotes(q, l, m - 1, k, Found(f.left, m - 1, true));
      } else {
        LoopNotes(q, m, r, k + 1, Found(m, f.right, true));
      }
    }
  }

  // The comment in the source reads left > right as "addr is in no matching entry".  On every table, sorted
  // or not, left > right comes back exactly when the region has no matching entry at all ...
  lemma EmptyAnswerIff(q: Query)
    requires Proper(q)
    ensures Search(q).0 > Search(q).1 <==> !exists i :: Is(q, i)
  {
    if q.lo <= q.hi {
      hide Reachable, Loop, Settle;
      FirstReachable(q);
      var f := Found(q.lo, q.hi, false);
      LoopNotes(q, q.lo, q.hi, 0, f);
      LoopBounds(q, q.lo, q.hi, 0, f);
      var g := Loop(q, q.lo, q.hi, 0, f);
      SettleFinds(q, g.left, g.right);
    }
  }

  // ... so the reading is right exactly when some matching entry is at or below addr or none exists.
  lemma EmptyReadingRightIff(q: Query)
    requires Proper(q)
    ensures (Search(q).0 > Search(q).1 <==> !exists i :: Is(q, i) && Val(q, i) <= q.addr)
            <==> (exists i :: Is(q, i) && Val(q, i) <= q.addr) || !exists i :: Is(q, i)
  {
    EmptyAnswerIff(q);
    hide Search;
  }

  // addr == 2^32 - 1: the key wraps to 0 after the exact match and the entry is lost.
  lemma WrapExample()
    ensures var q := Query([Stab(36, 0xFFFF_FFFF)], 0, 0, 36, 0xFFFF_FFFF);
      Sorted(q) && Search(q) == (-1, -1) && !Brackets(q, -1, -1)
  {
    var q := Query([Stab(36, 0xFFFF_FFFF)], 0, 0, 36, 0xFFFF_FFFF);
    FirstReachable(q);
    var f0, f1 := Found(0, 0, false), Found(0, 0, true);
    assert Key(q, 0) == 0xFFFF_FFFF && Key(q, 1) == 0;
    LoopStep(q, 0, 0, 0, f0);
    LoopStep(q, 0, 0, 1, f1);
    LoopStep(q, 0, -1, 1, Found(0, -1, true));
    assert Is(q, 0);
  }

  // -------------------------------------------------------------------------
  // addr and addr + 1 side by side
  // -------------------------------------------------------------------------

  function Sub(q: Query, lo: int, hi: int): Query { q.(lo := lo, hi := hi) }

  ghost predicate Right(q: Query)
    requires Proper(q)
  {
    Brackets(q, Search(q).0, Search(q).1)
  }

  // Two matching entries addr and addr + 1 with none of the type between them.
  ghost predicate Adjacent(q: Query, i: int, j: int)
    requires Proper(q)
  {
    && i < j && Is(q, i) && Is(q, j) && Val(q, i) == q.addr && Val(q, j) == q.addr + 1
    && forall x :: i < x < j ==> !Is(q, x)
  }

  lemma FindAdjacent(q: Query, i0: int, j0: int) returns (i: int, j: int)
    requires Proper(q) && Sorted(q) && Is(q, i0) && Is(q, j0) && Val(q, i0) == q.addr && Val(q, j0) == q.addr + 1
    ensures Adjacent(q, i, j)
    decreases j0
  {
    assert i0 < j0;
    var p := ScanDown(q, i0, j0 - 1);
    if Val(q, p) == q.addr {
      i, j := p, j0;
    } else {
      i, j := FindAdjacent(q, i0, p);
    }
  }

  // Once the key has moved on to addr + 1, the search runs into the next entry and takes it.
  lemma RunsOn(q: Query, i: int, j: int, l: int)
    requires Proper(q) && Adjacent(q, i, j) && q.lo == i && q.hi == j && q.addr + 2 < TWO32
    requires i <= l <= j && Reachable(q, l, j, 1)
    ensures Loop(q, l, j, 1, Found(i, j, true)) == Found(j, j, true)
    decreases j - l
  {
    hide Unseen, Reachable, Loop;
    var f := Found(i, j, true);
    var mid := (l + j) / 2;
    var m := ScanDown(q, l, mid);
    LoopStep(q, l, j, 1, f);
    assert Key(q, 1) == q.addr + 1 && Key(q, 2) == q.addr + 2;
    if m == j {
      var g := Found(j, j, true);
      LoopStep(q, j, j, 2, g);
      assert ScanDown(q, j, j) == j;
      LoopStep(q, j + 1, j, 2, g);
    } else {
      assert m == i || m < l;
      RunsOn(q, i, j, mid + 1);
    }
  }

  lemma AdjacentGoesWrong(q: Query, i: int, j: int)
    requires Proper(q) && Adjacent(q, i, j) && q.addr + 2 < TWO32
    ensures Search(Sub(q, i, j)) == (j, j) && !Right(Sub(q, i, j))
  {
    var s := Sub(q, i, j);
    assert forall x :: Is(s, x) <==> i <= x <= j && Is(q, x);
    assert Adjacent(s, i, j);
    FirstReachable(s);
    var f := Found(i, j, false);
    var mid := (i + j) / 2;
    assert ScanDown(s, i, mid) == i;
    assert Key(s, 0) == s.addr;
    LoopStep(s, i, j, 0, f);
    RunsOn(s, i, j, i);
    assert Val(s, j) > s.addr;
  }

  ghost predicate RightOnAllParts(q: Query)
    requires Proper(q)
  {
    forall lo, hi :: q.lo <= lo <= hi <= q.hi ==> Right(Sub(q, lo, hi))
  }

  // Away from the top of the address space the search is right on every part of a sorted region exactly
  // when addr and addr + 1 do not both occur as values of the type; StabEdge treats the other addresses.
  lemma RightBelowTopIff(q: Query)
    requires Proper(q) && Sorted(q) && q.addr + 2 < TWO32
    ensures RightOnAllParts(q) <==> Clear(q)
  {
    if Clear(q) {
      forall lo, hi | q.lo <= lo <= hi <= q.hi ensures Right(Sub(q, lo, hi)) {
        PartIsFine(q, lo, hi);
      }
    } else {
      var i0, j0 :| Is(q, i0) && Is(q, j0) && Val(q, i0) == q.addr && Val(q, j0) == q.addr + 1;
      var i, j := FindAdjacent(q, i0, j0);
      AdjacentGoesWrong(q, i, j);
    }
  }

  lemma PartIsFine(q: Query, lo: int, hi: int)
    requires Proper(q) && Sorted(q) && Clear(q) && q.lo <= lo && -1 <= hi <= q.hi
    ensures Right(Sub(q, lo, hi))
  {
    var s := Sub(q, lo, hi);
    assert forall x :: Is(s, x) ==> Is(q, x) && Val(s, x) == Val(q, x);
    SearchBrackets(s);
  }

  // -------------------------------------------------------------------------
  // The loops
  // -------------------------------------------------------------------------

  // Returns the new *region_left and *region_right.  Terminates on every table and every address.
  method StabBinsearch(stabs: seq<Stab>, regionLeft: int, regionRight: int, kind: int, addr: Word)
    returns (left: int, right: int)
    requires Proper(Query(stabs, regionLeft, regionRight, kind, addr))
    ensures (left, right) == Search(Query(stabs, regionLeft, regionRight, kind, addr))
  {
    hide Reachable, Loop, Unseen;
    ghost var q := Query(stabs, regionLeft, regionRight, kind, addr);
    left, right := regionLeft, regionRight;
    var l, r, anyMatches, key := regionLeft, regionRight, false, addr;
    ghost var k := 0;
    if l <= r {
      FirstReachable(q);
    }
    while l <= r
      invariant regionLeft <= regionRight ==> Reachable(q, l, r, k)
      invariant regionLeft <= regionRight ==>
                  Loop(q, l, r, k, Found(left, right, anyMatches)) == Loop(q, regionLeft, regionRight, 0,
                      Found(regionLeft, regionRight, false))
      invariant regionLeft > regionRight ==> l > r && !anyMatches && left == regionLeft
      invariant key == Key(q, k)
      decreases r - l + 1 + |Unseen(q, k)|
    {
      LoopStep(q, l, r, k, Found(left, right, anyMatches));
      InRange(q, l, r, k);
      var trueM := (l + r) / 2;
      var m := trueM;
      while m >= l && stabs[m].nType != kind
        invariant l - 1 <= m <= trueM && ScanDown(q, l, m) == ScanDown(q, l, trueM)
      {
        m := m - 1;
      }
      if m < l {
        l := trueM + 1;
        continue;
      }
      anyMatches := true;
      if stabs[m].nValue < key {
        left := m;
        l := trueM + 1;
      } else if stabs[m].nValue > key {
        right := m - 1;
        r := m - 1;
      } else {
        left := m;
        l := m;
        NextKey(q, k);
        key := (key + 1) % TWO32;
        k := k + 1;
      }
    }
    if regionLeft <= regionRight {
      LoopStep(q, l, r, k, Found(left, right, anyMatches));
      FirstReachable(q);
      LoopBounds(q, regionLeft, regionRight, 0, Found(regionLeft, regionRight, false));
    }
    if !anyMatches {
      right := left - 1;
    } else {
      l := right;
      while l > left && stabs[l].nType != kind
        invariant l <= right && Settle(q, left, l) == Settle(q, left, right)
      {
        l := l - 1;
      }
      left := l;
    }
  }

  lemma InRange(q: Query, l: int, r: int, k: nat)
    requires Reachable(q, l, r, k)
    ensures q.lo <= l && r <= q.hi && Proper(q)
  {}

  lemma NextKey(q: Query, k: nat)
    ensures (Key(q, k) + 1) % TWO32 == Key(q, k + 1)
  {
    var x := q.addr + k;
    var d := x / TWO32;
    assert x == TWO32 * d + x % TWO32;
    if x % TWO32 == TWO32 - 1 {
      DivModUnique(x + 1, TWO32, d + 1, 0);
    } else {
      DivModUnique(x + 1, TWO32, d, x % TWO32 + 1);
    }
  }
}
