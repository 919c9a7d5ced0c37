/** C's bitwise operators on unsigned words, bit by bit, and what the masks of inc/mmu.h do. */
module Bits {
  type Word = w: int | 0 <= w < 0x1_0000_0000

  // int32_t: the signed reading of a 32-bit word.
  function Int32(x: int): (r: int)
    ensures -0x8000_0000 <= r < 0x8000_0000
  {
    (x + 0x8000_0000) % 0x1_0000_0000 - 0x8000_0000
  }

  lemma Int32Wraps(x: int)
    ensures (x - Int32(x)) % 0x1_0000_0000 == 0
  {}

  function And(x: nat, y: nat): nat
    decreases x
  {
    if x == 0 || y == 0 then 0
    else 2 * And(x / 2, y / 2) + (x % 2) * (y % 2)
  }

  function Or(x: nat, y: nat): nat
    decreases x + y
  {
    if x == 0 then y else if y == 0 then x
    else 2 * Or(x / 2, y / 2) + (if x % 2 == 1 || y % 2 == 1 then 1 else 0)
  }

  function Pow2(k: nat): (r: nat)
    ensures r > 0
  {
    if k == 0 then 1 else 2 * Pow2(k - 1)
  }

  predicate Bit(x: nat, k: nat) {
    if k == 0 then x % 2 == 1 else Bit(x / 2, k - 1)
  }

  // x & (2^k - 1) keeps the low k bits.
  lemma {:induction false} AndMask(x: nat, k: nat)
    ensures And(x, Pow2(k) - 1) == x % Pow2(k)
  {
    if k == 0 {
    } else if x == 0 {
    } else {
      var m := Pow2(k - 1);
      AndMask(x / 2, k - 1);
      assert (2 * m - 1) / 2 == m - 1 && (2 * m - 1) % 2 == 1;
      ModDouble(x, m);
      if m == 1 {
        assert And(x / 2, 0) == 0;
      }
    }
  }

  lemma ModDouble(x: nat, m: nat)
    requires m > 0
    ensures x % (2 * m) == 2 * ((x / 2) % m) + x % 2
  {
    var q, r := (x / 2) / m, (x / 2) % m;
    assert x / 2 == q * m + r;
    assert x == (2 * m) * q + (2 * r + x % 2) by {
      assert 2 * (q * m) == (2 * m) * q;
    }
    DivModUnique(x, 2 * m, q, 2 * r + x % 2);
  }

  lemma DivModUnique(x: int, d: int, q: int, r: int)
    requires d > 0 && 0 <= r < d && x == d * q + r
    ensures x % d == r && x / d == q
  {
    var k := q - x / d;
    assert d * k == x % d - r;
    Multiple(d, k);
  }

  lemma Multiple(d: int, k: int)
    requires d > 0
    ensures k >= 1 ==> d * k >= d
    ensures k <= -1 ==> d * k <= -d
  {}

  function Shl(x: nat, k: nat): nat {
    if k == 0 then x else 2 * Shl(x, k - 1)
  }

  function Shr(x: nat, k: nat): nat {
    if k == 0 then x else Shr(x / 2, k - 1)
  }

  // (h << k) | y is a sum when y fits below bit k.
  lemma {:induction false} OrDisjoint(h: nat, y: nat, k: nat)
    requires y < Pow2(k)
    ensures Or(Shl(h, k), y) == Shl(h, k) + y
  {
    if k > 0 {
      OrDisjoint(h, y / 2, k - 1);
    }
  }

  // x & (m << k) looks at the high bits only.
  lemma {:induction false} AndHigh(x: nat, m: nat, k: nat)
    ensures And(x, Shl(m, k)) == Shl(And(Shr(x, k), m), k)
  {
    if k > 0 {
      AndHigh(x / 2, m, k - 1);
      AndDouble(x, Shl(m, k - 1));
    }
  }

  lemma AndDouble(x: nat, y: nat)
    ensures And(x, 2 * y) == 2 * And(x / 2, y)
  {
    var z := 2 * y;
    assert z / 2 == y && z % 2 == 0;
    if x != 0 && y != 0 {
      assert And(x, z) == 2 * And(x / 2, z / 2) + (x % 2) * 0;
    }
  }

  lemma {:induction false} ShlIsProduct(x: nat, k: nat)
    ensures Shl(x, k) == x * Pow2(k)
  {
    if k > 0 {
      ShlIsProduct(x, k - 1);
      assert 2 * (x * Pow2(k - 1)) == x * (2 * Pow2(k - 1));
    }
  }

  lemma {:induction false} ShrIsQuotient(x: nat, k: nat)
    ensures Shr(x, k) == x / Pow2(k)
  {
    if k > 0 {
      ShrIsQuotient(x / 2, k - 1);
      DivDiv(x, Pow2(k - 1));
    }
  }

  lemma DivDiv(x: nat, p: nat)
    requires p > 0
    ensures x / (2 * p) == x / 2 / p
  {
    var q, r := x / 2 / p, x / 2 % p;
    assert x / 2 == p * q + r;
    assert x == (2 * p) * q + (2 * r + x % 2) by {
      assert 2 * (p * q) == (2 * p) * q;
    }
    DivModUnique(x, 2 * p, q, 2 * r + x % 2);
  }

  lemma {:induction false} AndBits(x: nat, y: nat, k: nat)
    ensures Bit(And(x, y), k) <==> Bit(x, k) && Bit(y, k)
    decreases k
  {
    if x == 0 {
      ZeroBits(k);
    } else if y == 0 {
      ZeroBits(k);
    } else {
      var a := And(x, y);
      assert a / 2 == And(x / 2, y / 2) && a % 2 == (x % 2) * (y % 2);
      assert (x % 2) * (y % 2) == 1 <==> x % 2 == 1 && y % 2 == 1;
      if k > 0 {
        AndBits(x / 2, y / 2, k - 1);
      }
    }
  }

  lemma {:induction false} OrBits(x: nat, y: nat, k: nat)
    ensures Bit(Or(x, y), k) <==> Bit(x, k) || Bit(y, k)
    decreases k
  {
    ZeroBits(k);
    if x != 0 && y != 0 {
      var a := Or(x, y);
      assert a / 2 == Or(x / 2, y / 2) && (a % 2 == 1 <==> x % 2 == 1 || y % 2 == 1);
      if k > 0 {
        OrBits(x / 2, y / 2, k - 1);
      }
    }
  }

  lemma {:induction false} ZeroBits(k: nat)
    ensures !Bit(0, k)
  {
    if k > 0 {
      ZeroBits(k - 1);
    }
  }

  ghost predicate HasBitsOf(x: nat, m: nat) {
    forall k: nat :: Bit(m, k) ==> Bit(x, k)
  }

  // (x & m) == m says that x has every bit of m.
  lemma {:induction false} AndCovers(x: nat, m: nat)
    ensures And(x, m) == m <==> HasBitsOf(x, m)
  {
    forall k: nat ensures Bit(And(x, m), k) <==> Bit(x, k) && Bit(m, k) {
      AndBits(x, m, k);
    }
    if HasBitsOf(x, m) {
      BitsDetermine(And(x, m), m);
    }
  }

  lemma {:induction false} BitsDetermine(x: nat, y: nat)
    requires forall k: nat :: Bit(x, k) == Bit(y, k)
    ensures x == y
    decreases x + y
  {
    if x + y > 0 {
      assert Bit(x, 0) == Bit(y, 0);
      forall k: nat ensures Bit(x / 2, k) == Bit(y / 2, k) {
        assert Bit(x, k + 1) == Bit(y, k + 1);
      }
      BitsDetermine(x / 2, y / 2);
    }
  }
}
