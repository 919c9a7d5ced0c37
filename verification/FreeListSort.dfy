/** check_page_free_list's reordering: low pages to the front of the free list, in place, through
    pointers to the two tails. */
module FreeListSort {
  import opened Wrappers
  import opened FreeLists
  import opened Bits
  import opened Mmu

  // PDX(page2pa(pp)) >= pdx_limit
  predicate IsHigh(p: nat, pdxLimit: nat) { PDX(Page2pa(p) % TWO32) >= pdxLimit }

  // A page is high when its address is at or above limit * 4 MB.
  lemma HighIs(p: nat, limit: nat)
    requires p < 0x10_0000
    ensures IsHigh(p, limit) <==> p * 0x1000 >= limit * 0x40_0000
  {
    hide PDX, PTX, PGNUM, PGOFF, PTE_ADDR, Shl;
    Powers();
    ShlIsProduct(p, 12);
    Fields(p * 0x1000);
  }

  // q' is q with the pages below limit * 4 MB first; below and above the order is that of q.
  ghost predicate LowFirst(q: seq<nat>, q': seq<nat>, limit: nat) {
    && multiset(q') == multiset(q)
    && exists n: nat :: n <= |q'| && SplitAt(q', n, limit) && InOrder(q, q'[..n]) && InOrder(q, q'[n..])
  }

  ghost predicate SplitAt(q: seq<nat>, n: nat, limit: nat)
    requires n <= |q|
  {
    && (forall k :: 0 <= k < n ==> q[k] * 0x1000 < limit * 0x40_0000)
    && (forall k :: n <= k < |q| ==> q[k] * 0x1000 >= limit * 0x40_0000)
  }

  // Of any two elements of part, the first comes before the second in q.
  ghost predicate InOrder(q: seq<nat>, part: seq<nat>) {
    forall i, j :: 0 <= i < j < |part| ==> Before(q, part[i], part[j])
  }

  ghost predicate Before(q: seq<nat>, x: nat, y: nat) {
    exists a, b :: 0 <= a < b < |q| && q[a] == x && q[b] == y
  }

  lemma SelectInOrder(q: seq<nat>, f: nat -> bool)
    ensures InOrder(q, Select(q, f))
  {
    var part := Select(q, f);
    forall i, j | 0 <= i < j < |part| ensures Before(q, part[i], part[j]) {
      var a, b := SelectOrder(q, f, i, j);
      assert q[a] == part[i] && q[b] == part[j];
    }
  }

  lemma PartitionIsLowFirst(q: seq<nat>, limit: nat)
    requires forall p :: p in q ==> p < 0x10_0000
    ensures LowFirst(q, Low(q, limit) + High(q, limit), limit)
  {
    var a, b := Low(q, limit), High(q, limit);
    var q' := a + b;
    PartitionKeepsPages(q, limit);
    SelectInOrder(q, LowTest(limit));
    SelectInOrder(q, HighTest(limit));
    assert q'[..|a|] == a && q'[|a|..] == b;
    forall k | 0 <= k < |a| ensures q'[k] * 0x1000 < limit * 0x40_0000 {
      assert a[k] in a;
      SelectMember(q, LowTest(limit), a[k]);
      HighIs(a[k], limit);
    }
    forall k | |a| <= k < |q'| ensures q'[k] * 0x1000 >= limit * 0x40_0000 {
      assert b[k - |a|] in b;
      SelectMember(q, HighTest(limit), b[k - |a|]);
      HighIs(b[k - |a|], limit);
    }
    assert SplitAt(q', |a|, limit);
  }

  function LowTest(limit: nat): nat -> bool { (p: nat) => !IsHigh(p, limit) }

  function HighTest(limit: nat): nat -> bool { (p: nat) => IsHigh(p, limit) }

  function Low(q: seq<nat>, limit: nat): seq<nat> { Select(q, LowTest(limit)) }

  function High(q: seq<nat>, limit: nat): seq<nat> { Select(q, HighTest(limit)) }

  // A `struct PageInfo **`: the address of the list's head variable, or of a node's link field.
  datatype Tail = HeadVar | LinkOf(node: nat)

  // The nodes of q are linked up to the last one, whose link (or the head variable) is still open.
  ghost predicate Open(head: Option<nat>, tail: Tail, q: seq<nat>, links: seq<Option<nat>>) {
    && (q == [] ==> tail == HeadVar)
    && (q != [] ==> head == Some(q[0]) && tail == LinkOf(q[|q| - 1]))
    && (forall k :: 0 <= k < |q| ==> q[k] < |links|)
    && (forall k :: 0 <= k < |q| - 1 ==> links[q[k]] == Some(q[k + 1]))
  }

  ghost predicate Rest(pp: Option<nat>, q: seq<nat>, links: seq<Option<nat>>, n: nat) {
    && n <= |q| && pp == At(q, n)
    && forall k :: n <= k < |q| ==> q[k] < |links| && links[q[k]] == At(q, k + 1)
  }

  // *tail = v
  method StoreTail(links: array<Option<nat>>, head: Option<nat>, tail: Tail, v: Option<nat>)
    returns (head': Option<nat>)
    requires tail.LinkOf? ==> tail.node < links.Length
    modifies links
    ensures head' == if tail.HeadVar? then v else head
    ensures links[..] == if tail.HeadVar? then old(links[..]) else old(links[..])[tail.node := v]
  {
    head' := head;
    match tail
    case HeadVar => head' := v;
    case LinkOf(node) => links[node] := v;
  }

  ghost predicate Disjoint(a: seq<nat>, b: seq<nat>) {
    forall i, j :: 0 <= i < |a| && 0 <= j < |b| ==> a[i] != b[j]
  }

  lemma OpenAppend(head: Option<nat>, tail: Tail, a: seq<nat>, links: seq<Option<nat>>, x: nat)
    requires Open(head, tail, a, links) && x < |links| && x !in a
    requires Distinct(a)
    ensures tail.LinkOf? ==> tail.node < |links|
    ensures var links' := if tail.HeadVar? then links else links[tail.node := Some(x)];
      var head' := if tail.HeadVar? then Some(x) else head;
      Open(head', LinkOf(x), a + [x], links')
  {}

  // Writing a node outside b leaves b's part alone.
  lemma OpenFrame(head: Option<nat>, tail: Tail, b: seq<nat>, links: seq<Option<nat>>, node: nat, v: Option<nat>)
    requires Open(head, tail, b, links) && node < |links| && node !in b
    ensures Open(head, tail, b, links[node := v])
  {}

  lemma RestStep(pp: Option<nat>, q: seq<nat>, links: seq<Option<nat>>, n: nat, links': seq<Option<nat>>)
    requires Rest(pp, q, links, n) && n < |q| && |links'| == |links|
    requires forall k :: n <= k < |q| ==> links'[q[k]] == links[q[k]]
    ensures Rest(links'[q[n]], q, links', n + 1)
  {}

  lemma ClosePair(head0: Option<nat>, tail0: Tail, a: seq<nat>, head1: Option<nat>, tail1: Tail, b: seq<nat>,
      links: seq<Option<nat>>)
    requires Open(head0, tail0, a, links) && Open(head1, tail1, b, links) && Disjoint(a, b)
    requires Distinct(a)
    requires Distinct(b)
    ensures (tail0.LinkOf? ==> tail0.node < |links|) && (tail1.LinkOf? ==> tail1.node < |links|)
    ensures var links1 := if tail1.HeadVar? then links else links[tail1.node := None];
      var pp2 := if tail1.HeadVar? then None else head1;
      var links2 := if tail0.HeadVar? then links1 else links1[tail0.node := pp2];
      var pp1 := if tail0.HeadVar? then pp2 else head0;
      Chain(pp1, a + b, links2)
  {
    var q := a + b;
    var links1 := if tail1.HeadVar? then links else links[tail1.node := None];
    var pp2 := if tail1.HeadVar? then None else head1;
    var links2 := if tail0.HeadVar? then links1 else links1[tail0.node := pp2];
    hide Open, Disjoint, Distinct, Threaded;
    CloseTail(head1, tail1, b, links, None);
    OtherTail(tail0, head0, a, tail1, head1, b, links, None);
    CloseTail(head0, tail0, a, links1, pp2);
    if tail0.LinkOf? {
      TailApart(tail0, head0, a, b, links);
      ThreadedFrame(b, links1, None, tail0.node, pp2);
    }
    JoinThreads(a, b, links2);
  }

  // *tail = v ends the list in v.
  lemma CloseTail(head: Option<nat>, tail: Tail, q: seq<nat>, links: seq<Option<nat>>, v: Option<nat>)
    requires Open(head, tail, q, links) && Distinct(q)
    ensures tail.LinkOf? ==> tail.node < |links|
    ensures Threaded(q, if tail.HeadVar? then links else links[tail.node := v], v)
    ensures (if tail.HeadVar? then v else head) == AtOr(q, 0, v)
  {}

  lemma OtherTail(tail0: Tail, head0: Option<nat>, a: seq<nat>, tail1: Tail, head1: Option<nat>, b: seq<nat>,
                  links: seq<Option<nat>>, v: Option<nat>)
    requires Open(head0, tail0, a, links) && Open(head1, tail1, b, links) && Disjoint(a, b)
    ensures tail1.LinkOf? ==> tail1.node < |links|
    ensures Open(head0, tail0, a, if tail1.HeadVar? then links else links[tail1.node := v])
  {}

  lemma TailApart(tail: Tail, head: Option<nat>, a: seq<nat>, b: seq<nat>, links: seq<Option<nat>>)
    requires Open(head, tail, a, links) && Disjoint(a, b) && tail.LinkOf?
    ensures tail.node !in b
  {}

  lemma ThreadedFrame(q: seq<nat>, links: seq<Option<nat>>, after: Option<nat>, node: nat, v: Option<nat>)
    requires Threaded(q, links, after) && node < |links| && node !in q
    ensures Threaded(q, links[node := v], after)
  {}

  // The nodes of q are linked in order, the last to `after`.
  ghost predicate Threaded(q: seq<nat>, links: seq<Option<nat>>, after: Option<nat>) {
    forall k :: 0 <= k < |q| ==> q[k] < |links| && links[q[k]] == AtOr(q, k + 1, after)
  }

  function AtOr(q: seq<nat>, k: nat, after: Option<nat>): Option<nat> { if k < |q| then Some(q[k]) else after }

  lemma JoinThreads(a: seq<nat>, b: seq<nat>, links: seq<Option<nat>>)
    requires Threaded(a, links, AtOr(b, 0, None)) && Threaded(b, links, None)
    ensures Chain(AtOr(a, 0, AtOr(b, 0, None)), a + b, links)
  {
    var q := a + b;
    forall k | 0 <= k < |q| ensures q[k] < |links| && links[q[k]] == At(q, k + 1) {
      if k < |a| {
        assert q[k] == a[k] && At(q, k + 1) == if k + 1 < |a| then Some(a[k + 1]) else At(b, 0);
      } else {
        assert q[k] == b[k - |a|] && At(q, k + 1) == At(b, k + 1 - |a|);
      }
    }
  }

  ghost predicate Sorting(q: seq<nat>, n: nat, limit: nat, pp: Option<nat>, pp1: Option<nat>, pp2: Option<nat>,
                          tp0: Tail, tp1: Tail, links: seq<Option<nat>>) {
    && Rest(pp, q, links, n)
    && Open(pp1, tp0, Low(q[..n], limit), links)
    && Open(pp2, tp1, High(q[..n], limit), links)
  }

  lemma SplitFacts(q: seq<nat>, n: nat, limit: nat)
    requires n <= |q| && Distinct(q)
    ensures var a, b := Low(q[..n], limit), High(q[..n], limit);
      && Distinct(a)
      && Distinct(b)
      && Disjoint(a, b)
      && (forall k :: n <= k < |q| ==> q[k] !in a && q[k] !in b)
  {
    var p := q[..n];
    var f, g := LowTest(limit), HighTest(limit);
    forall x ensures x in Select(p, f) <==> x in p && f(x) {
      SelectMember(p, f, x);
    }
    forall x ensures x in Select(p, g) <==> x in p && g(x) {
      SelectMember(p, g, x);
    }
    SelectDistinct(p, f);
    SelectDistinct(p, g);
    var a, b := Select(p, f), Select(p, g);
    forall i, j | 0 <= i < |a| && 0 <= j < |b| ensures a[i] != b[j] {
      assert a[i] in a && b[j] in b;
    }
  }

  lemma SelectDistinct(q: seq<nat>, f: nat -> bool)
    requires Distinct(q)
    ensures Distinct(Select(q, f))
  {
    var a := Select(q, f);
    forall i, j | 0 <= i < j < |a| ensures a[i] != a[j] {
      var x, y := SelectOrder(q, f, i, j);
    }
  }

  lemma SplitStep(q: seq<nat>, n: nat, limit: nat)
    requires n < |q|
    ensures Low(q[..n + 1], limit) == Low(q[..n], limit) + if IsHigh(q[n], limit) then [] else [q[n]]
    ensures High(q[..n + 1], limit) == High(q[..n], limit) + if IsHigh(q[n], limit) then [q[n]] else []
  {
    assert q[..n + 1][..n] == q[..n];
  }

  // One round on a page that goes to the end of list a; b is the other list.
  lemma RoundSorts(q: seq<nat>, n: nat, pp: Option<nat>, head: Option<nat>, tail: Tail, a: seq<nat>,
                   head': Option<nat>, tail': Tail, b: seq<nat>, links: seq<Option<nat>>)
    requires Rest(pp, q, links, n) && n < |q|
    requires Open(head, tail, a, links) && Open(head', tail', b, links) && Disjoint(a, b)
    requires Distinct(a)
    requires forall k :: n <= k < |q| ==> q[k] !in a && q[k] !in b
    ensures tail.LinkOf? ==> tail.node < |links|
    ensures var x := q[n];
      var after := if tail.HeadVar? then links else links[tail.node := Some(x)];
      && Open(if tail.HeadVar? then Some(x) else head, LinkOf(x), a + [x], after)
      && Open(head', tail', b, after)
      && Rest(after[x], q, after, n + 1)
  {
    var x := q[n];
    OpenAppend(head, tail, a, links, x);
    if tail.LinkOf? {
      assert a[|a| - 1] in a;
      assert tail.node !in b;
      OpenFrame(head', tail', b, links, tail.node, Some(x));
    }
    RestStep(pp, q, links, n, if tail.HeadVar? then links else links[tail.node := Some(x)]);
  }

  lemma TailIn(head: Option<nat>, tail: Tail, a: seq<nat>, links: seq<Option<nat>>, q: seq<nat>)
    requires Open(head, tail, a, links) && forall x :: x in a ==> x in q
    ensures tail.LinkOf? ==> tail.node in q && tail.node < |links|
  {
    if a != [] {
      assert a[|a| - 1] in a;
    }
  }

  // The loop body on the abstract lists.
  lemma SortStep(q: seq<nat>, n: nat, limit: nat, pp: Option<nat>, pp1: Option<nat>, pp2: Option<nat>,
                 tp0: Tail, tp1: Tail, links: seq<Option<nat>>)
    requires Sorting(q, n, limit, pp, pp1, pp2, tp0, tp1, links) && pp.Some? && Distinct(q)
    ensures n < |q| && pp.value < |links|
    ensures tp0.LinkOf? ==> tp0.node in q && tp0.node < |links|
    ensures tp1.LinkOf? ==> tp1.node in q && tp1.node < |links|
    ensures var x := pp.value;
      if IsHigh(x, limit) then
        var after := if tp1.HeadVar? then links else links[tp1.node := pp];
        Sorting(q, n + 1, limit, after[x], pp1, if tp1.HeadVar? then pp else pp2, tp0, LinkOf(x), after)
      else
        var after := if tp0.HeadVar? then links else links[tp0.node := pp];
        Sorting(q, n + 1, limit, after[x], if tp0.HeadVar? then pp else pp1, pp2, LinkOf(x), tp1, after)
  {
    hide Open, Low, High, IsHigh, Distinct, Disjoint, Rest;
    RestHead(pp, q, links, n);
    var a, b := Low(q[..n], limit), High(q[..n], limit);
    SplitFacts(q, n, limit);
    SplitStep(q, n, limit);
    InList(q, n, limit);
    TailIn(pp1, tp0, a, links, q);
    TailIn(pp2, tp1, b, links, q);
    if IsHigh(q[n], limit) {
      DisjointSwap(a, b);
      RoundSorts(q, n, pp, pp2, tp1, b, pp1, tp0, a, links);
      assert a == a + [];
    } else {
      RoundSorts(q, n, pp, pp1, tp0, a, pp2, tp1, b, links);
      assert b == b + [];
    }
  }

  lemma RestHead(pp: Option<nat>, q: seq<nat>, links: seq<Option<nat>>, n: nat)
    requires Rest(pp, q, links, n) && pp.Some?
    ensures n < |q| && pp == Some(q[n]) && q[n] < |links|
  {}

  lemma DisjointSwap(a: seq<nat>, b: seq<nat>)
    requires Disjoint(a, b)
    ensures Disjoint(b, a)
  {}

  lemma SortStart(head: Option<nat>, q: seq<nat>, limit: nat, links: seq<Option<nat>>)
    requires Chain(head, q, links)
    ensures Distinct(q) && Untouched(links, links, q)
    ensures Sorting(q, 0, limit, head, None, None, HeadVar, HeadVar, links)
  {
    forall i, j | 0 <= i < j < |q| ensures q[i] != q[j] {
      ChainDistinct(head, q, links, i, j);
    }
  }

  lemma SortDone(q: seq<nat>, n: nat, limit: nat, pp: Option<nat>, pp1: Option<nat>, pp2: Option<nat>,
                 tp0: Tail, tp1: Tail, links: seq<Option<nat>>)
    requires Sorting(q, n, limit, pp, pp1, pp2, tp0, tp1, links) && pp.None? && Distinct(q)
    ensures tp0.LinkOf? ==> tp0.node in q && tp0.node < |links|
    ensures tp1.LinkOf? ==> tp1.node in q && tp1.node < |links|
    ensures var links1 := if tp1.HeadVar? then links else links[tp1.node := None];
      var second := if tp1.HeadVar? then None else pp2;
      var links2 := if tp0.HeadVar? then links1 else links1[tp0.node := second];
      Chain(if tp0.HeadVar? then second else pp1, Low(q, limit) + High(q, limit), links2)
  {
    assert n == |q| && q[..n] == q;
    SplitFacts(q, n, limit);
    InList(q, n, limit);
    TailIn(pp1, tp0, Low(q, limit), links, q);
    TailIn(pp2, tp1, High(q, limit), links, q);
    ClosePair(pp1, tp0, Low(q, limit), pp2, tp1, High(q, limit), links);
  }

  // Links of nodes outside q are as they were.
  ghost predicate Untouched(was: seq<Option<nat>>, now: seq<Option<nat>>, q: seq<nat>) {
    |now| == |was| && forall x :: 0 <= x < |was| && x !in q ==> now[x] == was[x]
  }

  lemma UntouchedStep(was: seq<Option<nat>>, now: seq<Option<nat>>, q: seq<nat>, tail: Tail, v: Option<nat>)
    requires Untouched(was, now, q) && (tail.LinkOf? ==> tail.node < |now| && tail.node in q)
    ensures Untouched(was, if tail.HeadVar? then now else now[tail.node := v], q)
  {}

  // The loop body: append pp to the list of its type.
  method AppendPage(links: array<Option<nat>>, pp: Option<nat>, pp1: Option<nat>, pp2: Option<nat>, tp0: Tail,
      tp1: Tail,
                    pdxLimit: nat, ghost q: seq<nat>, ghost n: nat, ghost was: seq<Option<nat>>)
    returns (pp1': Option<nat>, pp2': Option<nat>, tp0': Tail, tp1': Tail)
    requires pp.Some? && Distinct(q) && Untouched(was, links[..], q)
    requires Sorting(q, n, pdxLimit, pp, pp1, pp2, tp0, tp1, links[..])
    modifies links
    ensures n < |q| && pp.value < links.Length && Untouched(was, links[..], q)
    ensures Sorting(q, n + 1, pdxLimit, links[pp.value], pp1', pp2', tp0', tp1', links[..])
  {
    hide Sorting, Untouched, Distinct, IsHigh;
    var x := pp.value;
    SortStep(q, n, pdxLimit, pp, pp1, pp2, tp0, tp1, links[..]);
    if IsHigh(x, pdxLimit) {
      UntouchedStep(was, links[..], q, tp1, pp);
      var head := StoreTail(links, pp2, tp1, pp);
      return pp1, head, tp0, LinkOf(x);
    } else {
      UntouchedStep(was, links[..], q, tp0, pp);
      var head := StoreTail(links, pp1, tp0, pp);
      return head, pp2, LinkOf(x), tp1;
    }
  }

  // *tp[1] = 0; *tp[0] = pp2;
  method JoinLists(links: array<Option<nat>>, pp1: Option<nat>, pp2: Option<nat>, tp0: Tail, tp1: Tail,
                   pdxLimit: nat, ghost q: seq<nat>, ghost n: nat, ghost was: seq<Option<nat>>)
    returns (head: Option<nat>)
    requires Distinct(q) && Untouched(was, links[..], q)
    requires Sorting(q, n, pdxLimit, None, pp1, pp2, tp0, tp1, links[..])
    modifies links
    ensures Chain(head, Low(q, pdxLimit) + High(q, pdxLimit), links[..])
    ensures Untouched(was, links[..], q)
  {
    hide Sorting, Untouched, Distinct, Chain, Low, High;
    SortDone(q, n, pdxLimit, None, pp1, pp2, tp0, tp1, links[..]);
    UntouchedStep(was, links[..], q, tp1, None);
    var second := StoreTail(links, pp2, tp1, None);
    UntouchedStep(was, links[..], q, tp0, second);
    head := StoreTail(links, pp1, tp0, second);
  }

  // Moves the pages below pdxLimit to the front of the list that starts at head; the new head is
  // returned.  The order within the low and within the high pages stays.
  method LowPagesFirst(links: array<Option<nat>>, head: Option<nat>, pdxLimit: nat, ghost q: seq<nat>)
    returns (head': Option<nat>)
    requires Chain(head, q, links[..])
    modifies links
    ensures Chain(head', Low(q, pdxLimit) + High(q, pdxLimit), links[..])
    ensures (forall p :: p in q ==> p < 0x10_0000) ==>
              exists q' :: Chain(head', q', links[..]) && LowFirst(q, q', pdxLimit)
    ensures Untouched(old(links[..]), links[..], q)
  {
    hide Sorting, Chain, Untouched, Low, High, Distinct, LowFirst;
    if forall p :: p in q ==> p < 0x10_0000 {
      PartitionIsLowFirst(q, pdxLimit);
    }
    var pp, pp1, pp2: Option<nat> := head, None, None;
    var tp0, tp1 := HeadVar, HeadVar;
    ghost var n, was := 0, links[..];
    SortStart(head, q, pdxLimit, was);
    while pp.Some?
      invariant Sorting(q, n, pdxLimit, pp, pp1, pp2, tp0, tp1, links[..]) && Untouched(was, links[..], q)
      decreases |q| - n
    {
      var x := pp.value;
      pp1, pp2, tp0, tp1 := AppendPage(links, pp, pp1, pp2, tp0, tp1, pdxLimit, q, n, was);
      pp := links[x];
      n := n + 1;
    }
    head' := JoinLists(links, pp1, pp2, tp0, tp1, pdxLimit, q, n, was);
  }

  lemma InList(q: seq<nat>, n: nat, limit: nat)
    requires n <= |q|
    ensures forall x :: x in Low(q[..n], limit) ==> x in q
    ensures forall x :: x in High(q[..n], limit) ==> x in q
  {
    forall x | x in Low(q[..n], limit) ensures x in q {
      SelectMember(q[..n], LowTest(limit), x);
    }
    forall x | x in High(q[..n], limit) ensures x in q {
      SelectMember(q[..n], HighTest(limit), x);
    }
  }

  // No page is lost or repeated.
  lemma PartitionKeepsPages(q: seq<nat>, limit: nat)
    ensures multiset(Low(q, limit) + High(q, limit)) == multiset(q)
  {
    SelectSplits(q, LowTest(limit), HighTest(limit));
  }
}
