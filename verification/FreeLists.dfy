/** Null-terminated lists threaded through an array of links (pages[i].pp_link, envs[i].env_link). */
module FreeLists {
  import opened Wrappers

  // The k-th node of a list, NULL past its end.
  function At(q: seq<nat>, k: nat): Option<nat> {
    if k < |q| then Some(q[k]) else None
  }

  ghost predicate Distinct(q: seq<nat>) {
    forall i, j :: 0 <= i < j < |q| ==> q[i] != q[j]
  }

  // Following `links` from `head` visits exactly the nodes of q and ends in NULL.
  ghost predicate Chain(head: Option<nat>, q: seq<nat>, links: seq<Option<nat>>) {
    && head == At(q, 0)
    && forall k :: 0 <= k < |q| ==> q[k] < |links| && links[q[k]] == At(q, k + 1)
  }

  // A list that ends in NULL visits no node twice.
  lemma {:induction false} ChainDistinct(head: Option<nat>, q: seq<nat>, links: seq<Option<nat>>, i: nat, j: nat)
    requires Chain(head, q, links) && i < j < |q|
    ensures q[i] != q[j]
    decreases |q| - j
  {
    if q[i] == q[j] {
      assert At(q, i + 1) == At(q, j + 1);
      if j + 1 < |q| {
        ChainDistinct(head, q, links, i + 1, j + 1);
      }
    }
  }

  lemma ChainPush(head: Option<nat>, q: seq<nat>, links: seq<Option<nat>>, p: nat)
    requires Chain(head, q, links) && p < |links| && p !in q
    ensures Chain(Some(p), [p] + q, links[p := head])
  {
    var q' := [p] + q;
    forall k | 0 <= k < |q'| ensures q'[k] < |links| && links[p := head][q'[k]] == At(q', k + 1) {
      if k > 0 {
        assert q'[k] == q[k - 1];
      }
    }
  }

  lemma ChainPop(head: Option<nat>, q: seq<nat>, links: seq<Option<nat>>)
    requires Chain(head, q, links) && q != []
    ensures head == Some(q[0]) && q[0] < |links| && Chain(links[q[0]], q[1..], links)
  {
    forall k | 0 <= k < |q| - 1 ensures q[1..][k] < |links| && links[q[1..][k]] == At(q[1..], k + 1) {
      assert q[1..][k] == q[k + 1];
    }
  }

  // The elements with f, in order.
  function Select(q: seq<nat>, f: nat -> bool): seq<nat> {
    if q == [] then []
    else
      var rest := Select(q[..|q| - 1], f);
      if f(q[|q| - 1]) then rest + [q[|q| - 1]] else rest
  }

  lemma {:induction false} SelectMember(q: seq<nat>, f: nat -> bool, x: nat)
    ensures x in Select(q, f) <==> x in q && f(x)
  {
    if q != [] {
      var n := |q| - 1;
      SelectMember(q[..n], f, x);
      assert q == q[..n] + [q[n]];
    }
  }

  // The order of Select is the order of q.
  lemma {:induction false} SelectOrder(q: seq<nat>, f: nat -> bool, i: nat, j: nat) returns (a: nat, b: nat)
    requires i < j < |Select(q, f)|
    ensures a < b < |q| && q[a] == Select(q, f)[i] && q[b] == Select(q, f)[j]
  {
    var n := |q| - 1;
    var rest := Select(q[..n], f);
    if j < |rest| {
      a, b := SelectOrder(q[..n], f, i, j);
    } else {
      b := n;
      SelectMember(q[..n], f, rest[i]);
      assert rest[i] in rest;
      a :| 0 <= a < n && q[..n][a] == rest[i];
    }
  }

  // Splitting by f keeps every element, with its multiplicity.
  lemma {:induction false} SelectSplits(q: seq<nat>, f: nat -> bool, g: nat -> bool)
    requires forall x :: g(x) == !f(x)
    ensures multiset(Select(q, f) + Select(q, g)) == multiset(q)
  {
    if q != [] {
      var n := |q| - 1;
      SelectSplits(q[..n], f, g);
      assert q == q[..n] + [q[n]];
      assert multiset(q) == multiset(q[..n]) + multiset{q[n]};
      assert multiset(Select(q, f) + Select(q, g)) == multiset(Select(q, f)) + multiset(Select(q, g));
    }
  }
}
