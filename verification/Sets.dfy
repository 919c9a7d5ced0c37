/** Cardinalities of finite sets. */
module Sets {
  lemma CardMono<T>(a: set<T>, b: set<T>)
    requires a <= b
    ensures |a| <= |b|
    decreases a
  {
    if a != {} {
      var x :| x in a;
      CardMono(a - {x}, b - {x});
    }
  }

  lemma CardStrict<T>(a: set<T>, b: set<T>, x: T)
    requires a <= b && x in b && x !in a
    ensures |a| < |b|
  {
    CardMono(a, b - {x});
  }

  function Range(lo: int, hi: int): (s: set<int>)
    ensures forall i :: i in s <==> lo <= i <= hi
    ensures |s| == if lo <= hi then hi - lo + 1 else 0
    decreases hi - lo
  {
    if lo > hi then {} else Range(lo, hi - 1) + {hi}
  }

  lemma {:induction false} BijectionCard<A(!new), B(!new)>(m: map<A, B>)
    requires forall a, b :: a in m && b in m && m[a] == m[b] ==> a == b
    ensures |m.Keys| == |m.Values|
  {
    if m.Keys != {} {
      var a :| a in m.Keys;
      var m' := m - {a};
      BijectionCard(m');
      assert m'.Keys == m.Keys - {a};
      assert m'.Values == m.Values - {m[a]} by {
        forall b | b in m.Values - {m[a]} ensures b in m'.Values {
          var k :| k in m && m[k] == b;
          assert k in m';
        }
      }
    }
  }
}
