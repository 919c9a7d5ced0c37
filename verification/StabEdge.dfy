/** stab_binsearch at the top of the address space, where its key wraps to 0: the exact condition for every
    address. */
module StabEdge {
  import opened StabSearch

  const TOP: nat := 0xFFFF_FFFF

  // -------------------------------------------------------------------------
  // addr is 2^32 - 1
  // -------------------------------------------------------------------------

  // An exact match wraps the key to 0, and the entry is passed over.
  lemma TopGoesWrong(q: Query, i: int)
    requires Proper(q) && q.addr == TOP && Is(q, i) && Val(q, i) == TOP
    ensures Search(Sub(q, i, i)) == (i - 1, i - 1) && !Right(Sub(q, i, i))
  {
    var s := Sub(q, i, i);
    FirstReachable(s);
    var f0, f1 := Found(i, i, false), Found(i, i, true);
    assert ScanDown(s, i, i) == i && Key(s, 0) == TOP && Key(s, 1) == 0;
    LoopStep(s, i, i, 0, f0);
    LoopStep(s, i, i, 1, f1);
    LoopStep(s, i, i - 1, 1, Found(i, i - 1, true));
    assert Is(s, i);
  }

  // -------------------------------------------------------------------------
  // addr is 2^32 - 2: after addr the key is 2^32 - 1, and after that 0
  // -------------------------------------------------------------------------

  // i is the last entry with addr, j the first with addr + 1, and j2 the second (or one past the region).
  ghost predicate Pair(q: Query, i: int, j: int, j2: int)
    requires Proper(q)
  {
    && q.addr == TOP - 1 && Adjacent(q, i, j)
    && j < j2 <= q.hi + 1 && (j2 <= q.hi ==> Is(q, j2)) && forall x :: j < x < j2 ==> !Is(q, x)
  }

  // Halving [l, r] upwards, the first middle at or past j is also at or past j2.
  predicate Jumps(l: int, r: int, j: int, j2: int)
    decreases r - l
  {
    if l > r then false
    else
      var mid := (l + r) / 2;
      if mid < j then Jumps(mid + 1, r, j, j2) else mid >= j2
  }

  lemma JumpsStep(l: int, r: int, j: int, j2: int)
    ensures Jumps(l, r, j, j2) ==
            if l > r then false else if (l + r) / 2 < j then Jumps((l + r) / 2 + 1, r, j, j2) else (l + r) / 2 >= j2
  {}

  // With key 0 every entry left is above the key: the range shrinks onto its first entry and past it.
  lemma FoldsBack(q: Query, m: int, r: int)
    requires Proper(q) && Sorted(q) && q.addr == TOP - 1 && Is(q, m) && Val(q, m) == TOP
    requires m <= r && Reachable(q, m, r, 2)
    ensures Loop(q, m, r, 2, Found(m, r, true)) == Found(m, m - 1, true)
    decreases r - m
  {
    hide Reachable, Loop;
    InRange(q, m, r, 2);
    var x := ScanDown(q, m, (m + r) / 2);
    assert x >= m && Key(q, 2) == 0;
    assert x > m ==> Val(q, m) <= Val(q, x);
    LoopStep(q, m, r, 2, Found(m, r, true));
    if x > m {
      FoldsBack(q, m, x - 1);
    } else {
      LoopStep(q, m, m - 1, 2, Found(m, m - 1, true));
    }
  }

  // The search at key addr + 1, having met addr: without an entry of that value in the range it ends as
  // usual; otherwise it lands on one, the first exactly if the halving does not jump over it, and backs
  // off to just before it.
  lemma SecondKey(q: Query, l: int, r: int, f: Found, i: int, j: int, j2: int) returns (m: int)
    requires Proper(q) && Sorted(q) && Pair(q, i, j, j2)
    requires Reachable(q, l, r, 1) && Standing(q, l, r, 1, f) && l <= j && f.any
    ensures r < j ==> Ended(q, Loop(q, l, r, 1, f))
    ensures r >= j ==> Is(q, m) && m >= j && Loop(q, l, r, 1, f) == Found(m, m - 1, true)
    ensures r >= j ==> if Jumps(l, r, j, j2) then m >= j2 else m == j
    decreases r - l
  {
    hide Reachable, Loop, Standing, Ended, Jumps, Pair, Sorted;
    LoopStep(q, l, r, 1, f);
    JumpsStep(l, r, j, j2);
    InRange(q, l, r, 1);
    m := l - 1;
    if l > r {
      StandingEnds(q, l, r, 1, f);
    } else {
      var mid := (l + r) / 2;
      var x := ScanDown(q, l, mid);
      SecondProbe(q, l, r, f, i, j, j2, mid, x);
      if x < l {
        m := SecondKey(q, mid + 1, r, f, i, j, j2);
      } else if Val(q, x) < Key(q, 1) {
        m := SecondKey(q, mid + 1, r, Found(x, f.right, true), i, j, j2);
      } else {
        m := x;
        FoldsBack(q, x, r);
      }
    }
  }

  lemma SecondProbe(q: Query, l: int, r: int, f: Found, i: int, j: int, j2: int, mid: int, x: int)
    requires Proper(q) && Sorted(q) && Pair(q, i, j, j2) && Standing(q, l, r, 1, f) && l <= j && f.any
    requires l <= mid <= r && x == ScanDown(q, l, mid)
    ensures Key(q, 1) == TOP && f.right == r && r <= q.hi
    ensures x < l ==> mid < j && Standing(q, mid + 1, r, 1, f)
    ensures x >= l && Val(q, x) < TOP ==> mid < j && Standing(q, mid + 1, r, 1, Found(x, f.right, true))
    ensures x >= l && Val(q, x) == TOP ==> x >= j && mid >= j && (if mid >= j2 then x >= j2 else x == j)
  {
    hide ScanDown;
    assert Is(q, j) && Is(q, i);
    if mid >= j {
      assert x >= j;
      assert x > j ==> Val(q, j) <= Val(q, x);
    } else if x >= l {
      assert Val(q, x) < TOP by { BeforeFirst(q, i, j, x); }
    }
  }

  lemma BeforeFirst(q: Query, i: int, j: int, x: int)
    requires Proper(q) && Sorted(q) && Adjacent(q, i, j) && Is(q, x) && x < j
    ensures Val(q, x) <= q.addr && x <= i
  {}

  // -------------------------------------------------------------------------
  // Parts that find a neighbour
  // -------------------------------------------------------------------------

  // The first probe of [lo, hi] is an exact match.
  ghost predicate Hits(q: Query, lo: int, hi: int)
    requires Proper(q) && q.lo <= lo <= hi <= q.hi
  {
    var m := ScanDown(q, lo, (lo + hi) / 2);
    m >= lo && Val(q, m) == q.addr
  }

  // No part whose first probe meets addr goes on to jump over the first entry with addr + 1.
  ghost predicate NoJumps(q: Query, j: int, j2: int)
    requires Proper(q)
  {
    forall lo, hi :: q.lo <= lo <= hi <= q.hi && Hits(q, lo, hi) ==> !Jumps(ScanDown(q, lo, (lo + hi) / 2), hi, j, j2)
  }

  // addr and addr + 1 both occur and still nothing can go wrong: they stand in consecutive entries, and no
  // halving jumps.  With one entry of value addr + 1 none does.
  ghost predicate Snug(q: Query)
    requires Proper(q)
  {
    exists i, j, j2 :: Pair(q, i, j, j2) && j == i + 1 && NoJumps(q, j, j2)
  }

  // What the loop may end in: the usual, or just before the first entry with addr + 1.
  ghost predicate EndsSnug(q: Query, g: Found, j: int)
    requires Proper(q)
  {
    Ended(q, g) || g == Found(j, j - 1, true)
  }

  lemma PairIs(q: Query, i: int, j: int, j2: int)
    requires Proper(q) && Pair(q, i, j, j2)
    ensures Adjacent(q, i, j) && i < j
  {}

  lemma SnugLoop(q: Query, l: int, r: int, f: Found, i: int, j: int, j2: int)
    requires Proper(q) && Sorted(q) && Pair(q, i, j, j2) && NoJumps(q, j, j2)
    requires Reachable(q, l, r, 0) && Standing(q, l, r, 0, f)
    ensures EndsSnug(q, Loop(q, l, r, 0, f), j)
    decreases r - l
  {
    hide Reachable, Loop, Standing, Ended, Hits, NoJumps, Jumps, Sorted;
    PairIs(q, i, j, j2);
    hide Pair;
    LoopStep(q, l, r, 0, f);
    InRange(q, l, r, 0);
    if l > r {
      StandingEnds(q, l, r, 0, f);
    } else {
      var mid := (l + r) / 2;
      var x := ScanDown(q, l, mid);
      FirstProbe(q, l, r, f, mid, x);
      if x < l {
        SnugLoop(q, mid + 1, r, f, i, j, j2);
      } else if Val(q, x) < Key(q, 0) {
        SnugLoop(q, mid + 1, r, Found(x, f.right, true), i, j, j2);
      } else if Val(q, x) > Key(q, 0) {
        SnugLoop(q, l, x - 1, Found(f.left, x - 1, true), i, j, j2);
      } else {
        MatchBefore(q, i, j, x);
        NoJumpHere(q, l, r, x, j, j2);
        var m := SecondKey(q, x, r, Found(x, f.right, true), i, j, j2);
      }
    }
  }

  lemma NoJumpHere(q: Query, l: int, r: int, x: int, j: int, j2: int)
    requires Proper(q) && NoJumps(q, j, j2) && q.lo <= l <= r <= q.hi
    requires x == ScanDown(q, l, (l + r) / 2) && x >= l && Val(q, x) == q.addr
    ensures !Jumps(x, r, j, j2)
  {
    assert Hits(q, l, r);
    hide Jumps;
  }

  lemma MatchBefore(q: Query, i: int, j: int, x: int)
    requires Proper(q) && Sorted(q) && Adjacent(q, i, j) && Is(q, x) && Val(q, x) == q.addr
    ensures x <= i < j
  {
    assert forall y :: Is(q, y) && y > j ==> Val(q, j) <= Val(q, y);
  }

  // One probe while the key is still addr.
  lemma FirstProbe(q: Query, l: int, r: int, f: Found, mid: int, x: int)
    requires Proper(q) && Sorted(q) && Standing(q, l, r, 0, f) && l <= mid <= r && x == ScanDown(q, l, mid)
    ensures Key(q, 0) == q.addr && f.right == r && q.lo <= l && r <= q.hi
    ensures x < l ==> Standing(q, mid + 1, r, 0, f)
    ensures x >= l && Val(q, x) < q.addr ==> Standing(q, mid + 1, r, 0, Found(x, f.right, true))
    ensures x >= l && Val(q, x) > q.addr ==> Standing(q, l, x - 1, 0, Found(f.left, x - 1, true))
    ensures x >= l && Val(q, x) == q.addr ==> Standing(q, x, r, 1, Found(x, f.right, true))
  {
    hide ScanDown;
    if x < l {
    } else if Val(q, x) < q.addr {
    } else if Val(q, x) > q.addr {
    }
  }

  lemma SnugSearch(q: Query, i: int, j: int, j2: int)
    requires Proper(q) && Sorted(q) && q.lo <= q.hi && Pair(q, i, j, j2) && j == i + 1 && NoJumps(q, j, j2)
    ensures Right(q)
  {
    hide Reachable, Ended, Standing, Loop, Settle, Brackets, NoJumps;
    FirstReachable(q);
    var f := Found(q.lo, q.hi, false);
    FirstStanding(q);
    SnugLoop(q, q.lo, q.hi, f, i, j, j2);
    var g := Loop(q, q.lo, q.hi, 0, f);
    if Ended(q, g) {
      EndedBrackets(q, g);
    } else {
      BackedOff(q, i, j);
      SettleAt(q, j, j - 1);
    }
  }

  lemma SettleAt(q: Query, left: int, l: int)
    requires Proper(q) && q.lo <= left && l <= q.hi && l <= left
    ensures Settle(q, left, l) == l
  {}

  lemma BackedOff(q: Query, i: int, j: int)
    requires Proper(q) && Sorted(q) && Adjacent(q, i, j) && j == i + 1
    ensures Brackets(q, i, i)
  {
    forall x | Is(q, x) ensures Val(q, x) <= q.addr <==> x <= i {
      if x > j {
        assert Val(q, j) <= Val(q, x);
      }
    }
  }

  // The part [lo, hi], whose first probe meets addr and which holds an entry with addr + 1, ends just
  // before some such entry.
  lemma HitSearch(q: Query, i: int, j: int, j2: int) returns (m: int)
    requires Proper(q) && Sorted(q) && Pair(q, i, j, j2) && Hits(q, q.lo, q.hi)
    ensures Is(q, m) && m >= j && Search(q) == (m - 1, m - 1)
    ensures if Jumps(ScanDown(q, q.lo, (q.lo + q.hi) / 2), q.hi, j, j2) then m >= j2 else m == j
  {
    hide Reachable, Ended, Standing, Loop, Settle, Jumps, Sorted;
    PairIs(q, i, j, j2);
    assert j <= q.hi;
    hide Pair, Adjacent;
    FirstReachable(q);
    var f := Found(q.lo, q.hi, false);
    FirstStanding(q);
    LoopBounds(q, q.lo, q.hi, 0, f);
    var mid := (q.lo + q.hi) / 2;
    var x := ScanDown(q, q.lo, mid);
    FirstProbe(q, q.lo, q.hi, f, mid, x);
    LoopStep(q, q.lo, q.hi, 0, f);
    MatchBefore(q, i, j, x);
    m := SecondKey(q, x, q.hi, Found(x, q.hi, true), i, j, j2);
    SettleAt(q, m, m - 1);
  }

  // -------------------------------------------------------------------------
  // Parts of a table
  // -------------------------------------------------------------------------

  // The pair seen from a part that holds both its entries.
  lemma PartPair(q: Query, lo: int, hi: int, i: int, j: int, j2: int)
    requires Proper(q) && Sorted(q) && Pair(q, i, j, j2) && q.lo <= lo <= i && j <= hi <= q.hi
    ensures var s := Sub(q, lo, hi); Sorted(s) && Pair(s, i, j, if j2 <= hi then j2 else hi + 1)
  {
    var s := Sub(q, lo, hi);
    assert forall x :: Is(s, x) <==> lo <= x <= hi && Is(q, x);
  }

  lemma {:induction false} PartScan(q: Query, lo: int, hi: int, l: int, m: int)
    requires Proper(q) && q.lo <= lo <= hi <= q.hi && lo <= l && m <= hi
    ensures ScanDown(Sub(q, lo, hi), l, m) == ScanDown(q, l, m)
    decreases m - l
  {
    if m >= l {
      PartScan(q, lo, hi, l, m - 1);
    }
  }

  // Past the end of the range there is no middle to land on.
  lemma {:induction false} JumpsWithin(l: int, r: int, j: int, j2: int)
    requires j2 > r
    ensures !Jumps(l, r, j, j2)
    decreases r - l
  {
    if l <= r {
      JumpsWithin((l + r) / 2 + 1, r, j, j2);
    }
  }

  lemma PartNoJumps(q: Query, lo: int, hi: int, j: int, j2: int)
    requires Proper(q) && NoJumps(q, j, j2) && q.lo <= lo <= hi <= q.hi
    ensures NoJumps(Sub(q, lo, hi), j, if j2 <= hi then j2 else hi + 1)
  {
    var s := Sub(q, lo, hi);
    var k2 := if j2 <= hi then j2 else hi + 1;
    forall a, b | lo <= a <= b <= hi && Hits(s, a, b) ensures !Jumps(ScanDown(s, a, (a + b) / 2), b, j, k2) {
      PartScan(q, lo, hi, a, (a + b) / 2);
      assert Hits(q, a, b);
      if j2 > hi {
        JumpsWithin(ScanDown(s, a, (a + b) / 2), b, j, k2);
      }
    }
  }

  lemma SnugPart(q: Query, lo: int, hi: int, i: int, j: int, j2: int)
    requires Proper(q) && Sorted(q) && Pair(q, i, j, j2) && j == i + 1 && NoJumps(q, j, j2)
        && q.lo <= lo <= hi <= q.hi
    ensures Right(Sub(q, lo, hi))
  {
    var s := Sub(q, lo, hi);
    if lo <= i && j <= hi {
      PartPair(q, lo, hi, i, j, j2);
      PartNoJumps(q, lo, hi, j, j2);
      SnugSearch(s, i, j, if j2 <= hi then j2 else hi + 1);
    } else {
      PartClear(q, lo, hi, i, j);
      SearchBrackets(s);
    }
  }

  lemma PartClear(q: Query, lo: int, hi: int, i: int, j: int)
    requires Proper(q) && Sorted(q) && Adjacent(q, i, j) && q.addr == TOP - 1
    requires q.lo <= lo <= hi <= q.hi && j == i + 1 && (lo > i || hi < j)
    ensures Sorted(Sub(q, lo, hi)) && Clear(Sub(q, lo, hi))
  {
    var s := Sub(q, lo, hi);
    forall x, y | Is(s, x) && Is(s, y) && Val(s, x) == s.addr ensures Val(s, y) != s.addr + 1 {
      MatchBefore(q, i, j, x);
      if y < j {
        BeforeFirst(q, i, j, y);
      }
    }
    assert forall x :: Is(s, x) ==> Is(q, x) && Val(s, x) == Val(q, x);
  }

  lemma FindPair(q: Query) returns (i: int, j: int, j2: int)
    requires Proper(q) && Sorted(q) && q.addr == TOP - 1 && !Clear(q)
    ensures Pair(q, i, j, j2)
  {
    var i0, j0 :| Is(q, i0) && Is(q, j0) && Val(q, i0) == q.addr && Val(q, j0) == q.addr + 1;
    i, j := FindAdjacent(q, i0, j0);
    j2 := j + 1;
    while j2 <= q.hi && !Is(q, j2)
      invariant j < j2 <= q.hi + 1 && forall x :: j < x < j2 ==> !Is(q, x)
    {
      j2 := j2 + 1;
    }
  }

  // A gap between the last addr and the first addr + 1, or a halving that jumps, shows on some part.
  lemma NotSnugGoesWrong(q: Query) returns (lo: int, hi: int)
    requires Proper(q) && Sorted(q) && q.addr == TOP - 1 && !Clear(q) && !Snug(q)
    ensures q.lo <= lo <= hi <= q.hi && !Right(Sub(q, lo, hi))
  {
    hide Jumps, Search, Hits, NoJumps;
    var i, j, j2 := FindPair(q);
    if j != i + 1 {
      lo, hi := i, j;
      GapHits(q, i, j);
    } else {
      lo, hi := FindJump(q, j, j2);
      JumpNeedsRoom(q, lo, hi, i, j, j2);
    }
    WrongPart(q, lo, hi, i, j, j2);
  }

  lemma FindJump(q: Query, j: int, j2: int) returns (lo: int, hi: int)
    requires Proper(q) && !NoJumps(q, j, j2)
    ensures q.lo <= lo <= hi <= q.hi && Hits(q, lo, hi) && Jumps(ScanDown(q, lo, (lo + hi) / 2), hi, j, j2)
  {
    hide Jumps, Hits;
    lo, hi :| q.lo <= lo <= hi <= q.hi && Hits(q, lo, hi) && Jumps(ScanDown(q, lo, (lo + hi) / 2), hi, j, j2);
  }

  lemma WrongPart(q: Query, lo: int, hi: int, i: int, j: int, j2: int)
    requires Proper(q) && Sorted(q) && Pair(q, i, j, j2) && q.lo <= lo <= i && j <= hi <= q.hi && Hits(q, lo, hi)
    requires j != i + 1 || (j2 <= hi && Jumps(ScanDown(q, lo, (lo + hi) / 2), hi, j, j2))
    ensures !Right(Sub(q, lo, hi))
  {
    hide Jumps, Search, Pair, Adjacent, Sorted, ScanDown;
    var s := Sub(q, lo, hi);
    PartPair(q, lo, hi, i, j, j2);
    PartScan(q, lo, hi, lo, (lo + hi) / 2);
    PairIs(s, i, j, if j2 <= hi then j2 else hi + 1);
    var m := HitSearch(s, i, j, if j2 <= hi then j2 else hi + 1);
    EndsAbove(s, i, j, m);
  }

  lemma GapHits(q: Query, i: int, j: int)
    requires Proper(q) && Adjacent(q, i, j)
    ensures ScanDown(q, i, (i + j) / 2) == i && Hits(q, i, j)
  {}

  lemma JumpNeedsRoom(q: Query, lo: int, hi: int, i: int, j: int, j2: int)
    requires Proper(q) && Sorted(q) && Pair(q, i, j, j2) && q.lo <= lo <= hi <= q.hi && Hits(q, lo, hi)
    requires Jumps(ScanDown(q, lo, (lo + hi) / 2), hi, j, j2)
    ensures lo <= i && j2 <= hi
  {
    MatchBefore(q, i, j, ScanDown(q, lo, (lo + hi) / 2));
    if j2 > hi {
      JumpsWithin(ScanDown(q, lo, (lo + hi) / 2), hi, j, j2);
    }
  }

  // (m - 1, m - 1) is wrong when m is past the first addr + 1, or when there is a gap before it.
  lemma EndsAbove(s: Query, i: int, j: int, m: int)
    requires Proper(s) && Adjacent(s, i, j) && Search(s) == (m - 1, m - 1) && Is(s, m) && m >= j
    requires j != i + 1 || m > j
    ensures !Right(s)
  {
    hide Search;
    if m == j {
      assert !Is(s, j - 1) && Is(s, i) && Val(s, i) <= s.addr;
    } else {
      assert Is(s, j) && j <= m - 1 && Val(s, j) > s.addr;
    }
  }

  // -------------------------------------------------------------------------
  // Every address
  // -------------------------------------------------------------------------

  // The search is right on every part of a sorted region exactly when addr, if it is the value of an entry
  // of the type, is not 2^32 - 1 and addr + 1 is the value of none; or when addr is 2^32 - 2 and the two
  // are snug.
  lemma RightOnAllPartsIff(q: Query)
    requires Proper(q) && Sorted(q)
    ensures RightOnAllParts(q) <==> Clear(q) || Snug(q)
  {
    hide Right, Snug, Search;
    if Clear(q) {
      forall lo, hi | q.lo <= lo <= hi <= q.hi ensures Right(Sub(q, lo, hi)) {
        PartIsFine(q, lo, hi);
      }
    } else if q.addr == TOP {
      var i :| Is(q, i) && Val(q, i) == q.addr;
      TopGoesWrong(q, i);
      SnugNotTop(q);
    } else if q.addr == TOP - 1 {
      if Snug(q) {
        SnugParts(q);
      } else {
        var lo, hi := NotSnugGoesWrong(q);
      }
    } else {
      RightBelowTopIff(q);
      SnugNotTop(q);
    }
  }

  lemma SnugNotTop(q: Query)
    requires Proper(q) && q.addr != TOP - 1
    ensures !Snug(q)
  {}

  lemma SnugParts(q: Query)
    requires Proper(q) && Sorted(q) && Snug(q)
    ensures RightOnAllParts(q)
  {
    var i, j, j2 :| Pair(q, i, j, j2) && j == i + 1 && NoJumps(q, j, j2);
    forall lo, hi | q.lo <= lo <= hi <= q.hi ensures Right(Sub(q, lo, hi)) {
      SnugPart(q, lo, hi, i, j, j2);
    }
  }

  // One entry with addr + 1, right behind the last with addr, is always snug ...
  lemma SingleIsSnug(q: Query, i: int)
    requires Proper(q) && Sorted(q) && q.addr == TOP - 1 && Is(q, i) && Is(q, i + 1)
    requires Val(q, i) == q.addr && Val(q, i + 1) == TOP && forall x :: Is(q, x) ==> x <= i + 1
    ensures Snug(q)
  {
    forall lo, hi | q.lo <= lo <= hi <= q.hi && Hits(q, lo, hi)
      ensures !Jumps(ScanDown(q, lo, (lo + hi) / 2), hi, i + 1, q.hi + 1)
    {
      JumpsWithin(ScanDown(q, lo, (lo + hi) / 2), hi, i + 1, q.hi + 1);
    }
    assert Pair(q, i, i + 1, q.hi + 1) && NoJumps(q, i + 1, q.hi + 1);
  }

  // ... but consecutive entries are not enough: with four of each the middle of the second half is jumped to.
  lemma ConsecutiveGoesWrong()
    ensures var q := Query([Stab(36, 0xFFFF_FFFE), Stab(36, 0xFFFF_FFFE), Stab(36, 0xFFFF_FFFE), Stab(36,
        0xFFFF_FFFE),
                            Stab(36, 0xFFFF_FFFF), Stab(36, 0xFFFF_FFFF), Stab(36, 0xFFFF_FFFF), Stab(36,
                                0xFFFF_FFFF)],
                           0, 7, 36, 0xFFFF_FFFE);
      Sorted(q) && Adjacent(q, 3, 4) && Search(q) == (4, 4) && !Right(q)
  {}
}
