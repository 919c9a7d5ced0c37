/** memmove and memset of lib/string.c on byte-addressed memory: the assembly versions, which move or
    store four bytes at a time when they can, and the plain C versions. */
module Memory {
  import opened Bits

  type Byte = bv8

  // Memory after the n bytes at src have been copied, as they were, to dst.
  function Moved(m: seq<Byte>, dst: nat, src: nat, n: nat): (r: seq<Byte>)
    requires dst + n <= |m| && src + n <= |m|
  {
    m[..dst] + m[src..src + n] + m[dst + n..]
  }

  lemma MovedAt(m: seq<Byte>, dst: nat, src: nat, n: nat, x: nat)
    requires dst + n <= |m| && src + n <= |m| && x < |m|
    ensures |Moved(m, dst, src, n)| == |m|
    ensures Moved(m, dst, src, n)[x] == if dst <= x < dst + n then m[src + (x - dst)] else m[x]
  {}

  // k bytes of the copy are in place, counted from the front or from the back.
  ghost predicate Front(was: seq<Byte>, now: seq<Byte>, dst: nat, src: nat, n: nat, k: nat)
    requires dst + n <= |was| && src + n <= |was|
  {
    |now| == |was| && k <= n && forall x {:trigger now[x]} :: 0 <= x < |was| ==>
        now[x] == if dst <= x < dst + k then was[src + (x - dst)] else was[x]
  }

  ghost predicate Back(was: seq<Byte>, now: seq<Byte>, dst: nat, src: nat, n: nat, k: nat)
    requires dst + n <= |was| && src + n <= |was|
  {
    |now| == |was| && k <= n && forall x {:trigger now[x]} :: 0 <= x < |was| ==>
        now[x] == if dst + n - k <= x < dst + n then was[src + (x - dst)] else was[x]
  }

  lemma FrontStart(was: seq<Byte>, dst: nat, src: nat, n: nat)
    requires dst + n <= |was| && src + n <= |was|
    ensures Front(was, was, dst, src, n, 0) && Back(was, was, dst, src, n, 0)
  {}

  lemma FrontDone(was: seq<Byte>, now: seq<Byte>, dst: nat, src: nat, n: nat)
    requires dst + n <= |was| && src + n <= |was| && Front(was, now, dst, src, n, n)
    ensures now == Moved(was, dst, src, n)
  {}

  lemma BackDone(was: seq<Byte>, now: seq<Byte>, dst: nat, src: nat, n: nat)
    requires dst + n <= |was| && src + n <= |was| && Back(was, now, dst, src, n, n)
    ensures now == Moved(was, dst, src, n)
  {}

  // Copying upwards never overwrites a source byte still to be read.
  predicate UpSafe(dst: nat, src: nat, n: nat) { dst <= src || src + n <= dst }

  // j bytes read at s have been written at d.
  ghost predicate Copied(now: seq<Byte>, next: seq<Byte>, d: nat, s: nat, j: nat)
    requires d + j <= |now| && s + j <= |now|
  {
    |next| == |now| && forall x {:trigger next[x]} :: 0 <= x < |now| ==>
        next[x] == if d <= x < d + j then now[s + (x - d)] else now[x]
  }

  // Copying the next j bytes, all read before any is written, extends the part in place.
  lemma FrontStep(was: seq<Byte>, now: seq<Byte>, next: seq<Byte>, dst: nat, src: nat, n: nat, k: nat, j: nat)
    requires dst + n <= |was| && src + n <= |was| && UpSafe(dst, src, n)
    requires Front(was, now, dst, src, n, k) && k + j <= n && Copied(now, next, dst + k, src + k, j)
    ensures Front(was, next, dst, src, n, k + j)
  {
    forall x | 0 <= x < |was| ensures next[x] == if dst <= x < dst + k + j then was[src + (x - dst)] else was[x] {
      if dst + k <= x < dst + k + j {
        assert now[src + (x - dst)] == was[src + (x - dst)];
      }
    }
  }

  lemma BackStep(was: seq<Byte>, now: seq<Byte>, next: seq<Byte>, dst: nat, src: nat, n: nat, k: nat, j: nat)
    requires dst + n <= |was| && src + n <= |was| && src <= dst
    requires Back(was, now, dst, src, n, k) && k + j <= n && Copied(now, next, dst + n - k - j, src + n - k - j, j)
    ensures Back(was, next, dst, src, n, k + j)
  {
    forall x | 0 <= x < |was| ensures next[x] == if dst + n - k - j <= x < dst + n then was[src + (x - dst)]
        else was[x] {
      if dst + n - k - j <= x < dst + n - k {
        assert now[src + (x - dst)] == was[src + (x - dst)];
      }
    }
  }

  // One byte.
  method MoveByte(m: array<Byte>, d: nat, s: nat)
    requires d < m.Length && s < m.Length
    modifies m
    ensures Copied(old(m[..]), m[..], d, s, 1)
  {
    m[d] := m[s];
  }

  // cld; rep movsb
  method MovsbUp(m: array<Byte>, dst: nat, src: nat, n: nat)
    requires dst + n <= m.Length && src + n <= m.Length && UpSafe(dst, src, n)
    modifies m
    ensures m[..] == Moved(old(m[..]), dst, src, n)
  {
    hide Front, Back, Copied;
    ghost var was := m[..];
    var i := 0;
    FrontStart(was, dst, src, n);
    while i < n
      invariant i <= n && m.Length == |was| && Front(was, m[..], dst, src, n, i)
    {
      ghost var now := m[..];
      MoveByte(m, dst + i, src + i);
      ghost var next := m[..];
      assert Copied(now, next, dst + i, src + i, 1);
      FrontStep(was, now, next, dst, src, n, i, 1);
      i := i + 1;
    }
    FrontDone(was, m[..], dst, src, n);
  }

  // std; rep movsb
  method MovsbDown(m: array<Byte>, dst: nat, src: nat, n: nat)
    requires dst + n <= m.Length && src + n <= m.Length && src <= dst
    modifies m
    ensures m[..] == Moved(old(m[..]), dst, src, n)
  {
    hide Front, Back;
    ghost var was := m[..];
    var i := 0;
    FrontStart(was, dst, src, n);
    while i < n
      invariant i <= n && m.Length == |was| && Back(was, m[..], dst, src, n, i)
    {
      ghost var now := m[..];
      var d, s := dst + n - i - 1, src + n - i - 1;
      MoveByte(m, d, s);
      ghost var next := m[..];
      assert Copied(now, next, d, s, 1);
      BackStep(was, now, next, dst, src, n, i, 1);
      i := i + 1;
    }
    BackDone(was, m[..], dst, src, n);
  }

  // One movsl: four bytes are read, then four are written.
  method MoveWord(m: array<Byte>, d: nat, s: nat)
    requires d + 4 <= m.Length && s + 4 <= m.Length
    modifies m
    ensures Copied(old(m[..]), m[..], d, s, 4)
  {
    m[d], m[d + 1], m[d + 2], m[d + 3] := m[s], m[s + 1], m[s + 2], m[s + 3];
  }

  // cld; rep movsl: the registers advance by 4 for each of n / 4 words.
  method MovslUp(m: array<Byte>, dst: nat, src: nat, n: nat)
    requires dst + n <= m.Length && src + n <= m.Length && UpSafe(dst, src, n) && n % 4 == 0
    modifies m
    ensures m[..] == Moved(old(m[..]), dst, src, n)
  {
    hide Front, Back, Copied, UpSafe;
    ghost var was := m[..];
    var count, k := n / 4, 0;
    FrontStart(was, dst, src, n);
    while count > 0
      invariant 0 <= count && k + 4 * count == n && m.Length == |was| && Front(was, m[..], dst, src, n, k)
    {
      ghost var now := m[..];
      MoveWord(m, dst + k, src + k);
      ghost var next := m[..];
      assert Copied(now, next, dst + k, src + k, 4);
      FrontStep(was, now, next, dst, src, n, k, 4);
      k, count := k + 4, count - 1;
    }
    FrontDone(was, m[..], dst, src, n);
  }

  // std; rep movsl: the registers go down by 4.
  method MovslDown(m: array<Byte>, dst: nat, src: nat, n: nat)
    requires dst + n <= m.Length && src + n <= m.Length && src <= dst && n % 4 == 0
    modifies m
    ensures m[..] == Moved(old(m[..]), dst, src, n)
  {
    hide Front, Back, Copied, UpSafe;
    ghost var was := m[..];
    var count, k := n / 4, 0;
    FrontStart(was, dst, src, n);
    while count > 0
      invariant 0 <= count && k + 4 * count == n && m.Length == |was| && Back(was, m[..], dst, src, n, k)
    {
      ghost var now := m[..];
      MoveWord(m, dst + n - k - 4, src + n - k - 4);
      ghost var next := m[..];
      assert Copied(now, next, dst + n - k - 4, src + n - k - 4, 4);
      BackStep(was, now, next, dst, src, n, k, 4);
      k, count := k + 4, count - 1;
    }
    BackDone(was, m[..], dst, src, n);
  }

  // memmove with ASM: for every overlap, the destination ends up with the old source bytes.
  method Memmove(m: array<Byte>, dst: nat, src: nat, n: nat)
    requires dst + n <= m.Length && src + n <= m.Length
    modifies m
    ensures m[..] == Moved(old(m[..]), dst, src, n)
  {
    if src < dst && src + n > dst {
      var s, d := src + n, dst + n;
      if s % 4 == 0 && d % 4 == 0 && n % 4 == 0 {
        MovslDown(m, dst, src, n);
      } else {
        MovsbDown(m, dst, src, n);
      }
    } else {
      if src % 4 == 0 && dst % 4 == 0 && n % 4 == 0 {
        MovslUp(m, dst, src, n);
      } else {
        MovsbUp(m, dst, src, n);
      }
    }
  }

  // memmove without ASM.
  method MemmoveC(m: array<Byte>, dst: nat, src: nat, n: nat)
    requires dst + n <= m.Length && src + n <= m.Length
    modifies m
    ensures m[..] == Moved(old(m[..]), dst, src, n)
  {
    hide Front, Back, Copied;
    ghost var was := m[..];
    FrontStart(was, dst, src, n);
    var s, d, left := src, dst, n;
    if s < d && s + n > d {
      s := s + n;
      d := d + n;
      while left > 0
        invariant 0 <= left <= n && s == src + left && d == dst + left
        invariant m.Length == |was| && Back(was, m[..], dst, src, n, n - left)
      {
        ghost var now, k := m[..], n - left;
        left := left - 1;
        d := d - 1;
        s := s - 1;
        MoveByte(m, d, s);
        ghost var next := m[..];
        assert Copied(now, next, dst + n - k - 1, src + n - k - 1, 1);
        BackStep(was, now, next, dst, src, n, k, 1);
      }
      BackDone(was, m[..], dst, src, n);
    } else {
      while left > 0
        invariant 0 <= left <= n && s == src + (n - left) && d == dst + (n - left)
        invariant m.Length == |was| && Front(was, m[..], dst, src, n, n - left)
      {
        ghost var now, k := m[..], n - left;
        left := left - 1;
        MoveByte(m, d, s);
        ghost var next := m[..];
        assert Copied(now, next, dst + k, src + k, 1);
        FrontStep(was, now, next, dst, src, n, k, 1);
        d := d + 1;
        s := s + 1;
      }
      FrontDone(was, m[..], dst, src, n);
    }
  }

  // A word copy leaves the tail of a length that is not a multiple of 4 behind: n % 4 == 0 is exactly
  // when moving n / 4 words moves the n bytes, whatever they are.
  lemma WordsCoverIff(dst: nat, src: nat, n: nat)
    requires src + n <= dst
    ensures (forall m: seq<Byte> :: |m| == dst + n ==> Moved(m, dst, src, n / 4 * 4) == Moved(m, dst, src, n)) <==>
        n % 4 == 0
  {
    if n % 4 != 0 {
      var m := seq(dst + n, x => if x < dst then 1 else 0 as Byte);
      var k := n / 4 * 4;
      assert Moved(m, dst, src, k)[dst + k] == 0;
      assert Moved(m, dst, src, n)[dst + k] == 1;
    }
  }

  // -------------------------------------------------------------------------
  // memset
  // -------------------------------------------------------------------------

  function Filled(m: seq<Byte>, v: nat, c: Byte, n: nat): (r: seq<Byte>)
    requires v + n <= |m|
    ensures |r| == |m| && forall x :: 0 <= x < |m| ==> r[x] == if v <= x < v + n then c else m[x]
  {
    m[..v] + seq(n, _ => c) + m[v + n..]
  }

  function LowByte(c: bv32): (r: Byte)
    ensures r as bv32 == c % 256
  {
    (c & 0xFF) as Byte
  }

  // The word memset builds for stosl, and its bytes in memory order.
  function Splat(c: bv32): bv32 {
    var b := c & 0xFF;
    (b << 24) | (b << 16) | (b << 8) | b
  }

  lemma SplatBytes(c: bv32)
    ensures LowByte(Splat(c)) == LowByte(c) && LowByte(Splat(c) >> 8) == LowByte(c)
    ensures LowByte(Splat(c) >> 16) == LowByte(c) && LowByte(Splat(c) >> 24) == LowByte(c)
  {}

  ghost predicate FilledTo(was: seq<Byte>, now: seq<Byte>, v: nat, c: Byte, k: nat) {
    |now| == |was| && forall x {:trigger now[x]} :: 0 <= x < |was| ==> now[x] == if v <= x < v + k then c else was[x]
  }

  // stosl: one word, low byte first.
  method StoreWord(m: array<Byte>, v: nat, w: bv32)
    requires v + 4 <= m.Length
    modifies m
    ensures m[v] == LowByte(w) && m[v + 1] == LowByte(w >> 8) && m[v + 2] == LowByte(w >> 16)
        && m[v + 3] == LowByte(w >> 24)
    ensures forall x :: 0 <= x < m.Length && !(v <= x < v + 4) ==> m[x] == old(m[x])
  {
    m[v], m[v + 1], m[v + 2], m[v + 3] := LowByte(w), LowByte(w >> 8), LowByte(w >> 16), LowByte(w >> 24);
  }

  // memset with ASM: n bytes at v become the low byte of c, by words or by bytes.
  method Memset(m: array<Byte>, v: nat, c: bv32, n: nat)
    requires v + n <= m.Length
    modifies m
    ensures m[..] == Filled(old(m[..]), v, LowByte(c), n)
  {
    ghost var was := m[..];
    var i := 0;
    if n == 0 {
      assert m[..] == Filled(was, v, LowByte(c), 0);
      return;
    }
    SplatBytes(c);
    hide Splat, LowByte;
    if v % 4 == 0 && n % 4 == 0 {
      var w := Splat(c);
      while i < n / 4
        invariant 0 <= i <= n / 4 && FilledTo(was, m[..], v, LowByte(c), 4 * i)
      {
        StoreWord(m, v + 4 * i, w);
        i := i + 1;
      }
    } else {
      while i < n
        invariant 0 <= i <= n && FilledTo(was, m[..], v, LowByte(c), i)
      {
        m[v + i] := LowByte(c);
        i := i + 1;
      }
    }
    assert FilledTo(was, m[..], v, LowByte(c), n);
    assert m[..] == Filled(was, v, LowByte(c), n);
  }

  // memset without ASM counts in an int: beyond 2^31 bytes the count is negative and nothing is stored.  At
  // 2^31 the first decrement overflows, read as two's-complement wrap.
  method MemsetC(m: array<Byte>, v: nat, c: bv32, n: Word)
    requires v + n <= m.Length
    modifies m
    ensures m[..] == Filled(old(m[..]), v, LowByte(c), if n <= 0x8000_0000 then n else 0)
  {
    hide LowByte;
    ghost var was := m[..];
    var p, left := v, Int32(n);
    left := Int32(left - 1);
    while left >= 0
      invariant v <= p && (if n <= 0x8000_0000 then p - v + left == n - 1 && left >= -1 else p == v && left < 0)
      invariant FilledTo(was, m[..], v, LowByte(c), p - v)
      decreases left
    {
      m[p] := LowByte(c);
      p := p + 1;
      left := Int32(left - 1);
    }
    assert m[..] == Filled(was, v, LowByte(c), p - v);
  }
}
