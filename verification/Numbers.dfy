/** printnum and strtol: the text a number is printed as, and how it is read back. */
module Numbers {
  import opened Bits

  const SPACE: int := ' ' as int
  const MINUS: int := '-' as int

  // "0123456789abcdef"[d]
  function DigitChar(d: nat): int
    requires d < 16
  {
    if d < 10 then '0' as int + d else 'a' as int + (d - 10)
  }

  lemma QuotientSmaller(num: nat, base: nat)
    requires 2 <= base <= num
    ensures num / base < num
  {
    var q, r := num / base, num % base;
    assert num == base * q + r;
    TwiceAtMost(base, q);
  }

  lemma TwiceAtMost(b: nat, q: nat)
    requires b >= 2
    ensures 2 * q <= b * q
  {
    assert b * q == 2 * q + (b - 2) * q;
  }

  // The base-b digits of num, most significant first.
  function Digits(num: nat, base: nat): (r: seq<nat>)
    requires 2 <= base
    ensures |r| > 0 && forall i :: 0 <= i < |r| ==> r[i] < base
  {
    if num < base then [num]
    else
      QuotientSmaller(num, base);
      Digits(num / base, base) + [num % base]
  }

  function Power(base: nat, k: nat): nat { if k == 0 then 1 else base * Power(base, k - 1) }

  lemma {:induction false} DigitsCount(num: nat, base: nat, k: nat)
    requires 2 <= base && 1 <= k && num < Power(base, k)
    ensures |Digits(num, base)| <= k
    decreases k
  {
    if num >= base {
      assert Power(base, 1) == base;
      var rest := Power(base, k - 1);
      assert num / base < rest by { SmallQuotient(num, base, rest); }
      DigitsCount(num / base, base, k - 1);
      DigitsStep(num, base);
    }
  }

  lemma SmallQuotient(num: nat, base: nat, m: nat)
    requires base > 0 && num < base * m
    ensures num / base < m
  {
    assert base * (num / base) <= num;
    Scales(base, m, num / base);
  }

  lemma Scales(b: nat, x: nat, y: nat)
    ensures x <= y ==> b * x <= b * y
  {
    assert b * y == b * x + b * (y - x);
  }

  // No leading zero.
  lemma {:induction false} DigitsNormal(num: nat, base: nat)
    requires 2 <= base
    ensures num > 0 ==> Digits(num, base)[0] != 0
    ensures num == 0 ==> Digits(num, base) == [0]
    decreases num
  {
    if num >= base {
      QuotientSmaller(num, base);
      DigitsNormal(num / base, base);
      DigitsStep(num, base);
      assert num / base > 0;
    }
  }

  lemma HexDigits(d: nat)
    requires d < 16
    ensures DigitChar(d) == "0123456789abcdef"[d] as int
  {}

  function Chars(ds: seq<nat>): (r: seq<int>)
    requires forall i :: 0 <= i < |ds| ==> ds[i] < 16
    ensures |r| == |ds| && forall i :: 0 <= i < |ds| ==> r[i] == DigitChar(ds[i])
  {
    seq(|ds|, i requires 0 <= i < |ds| => DigitChar(ds[i]))
  }

  function Repeat(c: int, n: int): (r: seq<int>)
    ensures |r| == (if n > 0 then n else 0) && forall i :: 0 <= i < |r| ==> r[i] == c
  {
    if n <= 0 then [] else Repeat(c, n - 1) + [c]
  }

  // What printnum is for: the digits, padded on the left to width.
  function Field(num: nat, base: nat, width: int, padc: int): seq<int>
    requires 2 <= base <= 16
  {
    var ds := Digits(num, base);
    Repeat(padc, width - |ds|) + Chars(ds)
  }

  // What printnum emits, following its recursion: the padding is written by the innermost call.
  function Emitted(num: nat, base: nat, width: int, padc: int): seq<int>
    requires 2 <= base <= 16
    decreases num
  {
    (if num >= base then (QuotientSmaller(num, base); Emitted(num / base, base, width - 1, padc))
       else Repeat(padc, width - 1))
    + [DigitChar(num % base)]
  }

  lemma {:induction false} EmitsField(num: nat, base: nat, width: int, padc: int)
    requires 2 <= base <= 16
    ensures Emitted(num, base, width, padc) == Field(num, base, width, padc)
    decreases num
  {
    if num >= base {
      QuotientSmaller(num, base);
      EmitsField(num / base, base, width - 1, padc);
      var rest, last := Digits(num / base, base), num % base;
      hide Digits, Repeat, DigitChar;
      CharsAppend(rest, last);
      DigitsStep(num, base);
    } else {
      assert Chars([num]) == [DigitChar(num)];
    }
  }

  lemma DigitsStep(num: nat, base: nat)
    requires 2 <= base <= num
    ensures Digits(num, base) == Digits(num / base, base) + [num % base]
  {}

  lemma CharsAppend(ds: seq<nat>, d: nat)
    requires d < 16 && forall i :: 0 <= i < |ds| ==> ds[i] < 16
    ensures Chars(ds + [d]) == Chars(ds) + [DigitChar(d)]
  {}

  // -------------------------------------------------------------------------
  // strtol
  // -------------------------------------------------------------------------

  // A NUL-terminated string: past the end every byte read is the terminator.
  function ByteAt(s: seq<int>, i: nat): int { if i < |s| then s[i] else 0 }

  // The digit a character stands for, or -1.
  function DigitOf(c: int): int {
    if '0' as int <= c <= '9' as int then c - '0' as int
    else if 'a' as int <= c <= 'z' as int then c - 'a' as int + 10
    else if 'A' as int <= c <= 'Z' as int then c - 'A' as int + 10
    else -1
  }

  predicate DigitIn(c: int, base: int) { 0 <= DigitOf(c) < base }

  function SkipBlanks(s: seq<int>, i: nat): nat
    decreases |s| - i
  {
    if i < |s| && (s[i] == SPACE || s[i] == '\t' as int) then SkipBlanks(s, i + 1) else i
  }

  // The digit loop: the value so far, on 32 bits, and the first position that is no digit.
  function ReadDigits(s: seq<int>, i: nat, base: int, val: int): (int, nat)
    decreases |s| - i
  {
    if i < |s| && DigitIn(s[i], base) then ReadDigits(s, i + 1, base, Int32(val * base + DigitOf(s[i]))) else (val, i)
  }

  // After the sign: the base prefix.
  function Prefix(s: seq<int>, i: nat, base: int): (nat, int) {
    if (base == 0 || base == 16) && ByteAt(s, i) == '0' as int && ByteAt(s, i + 1) == 'x' as int then (i + 2, 16)
    else if base == 0 && ByteAt(s, i) == '0' as int then (i + 1, 8)
    else if base == 0 then (i, 10)
    else (i, base)
  }

  // The value and the offset of *endptr.
  function Strtol(s: seq<int>, base: int): (int, nat) {
    var i := SkipBlanks(s, 0);
    var neg := ByteAt(s, i) == MINUS;
    var j := if neg || ByteAt(s, i) == '+' as int then i + 1 else i;
    var (k, b) := Prefix(s, j, base);
    var (val, end) := ReadDigits(s, k, b, 0);
    (if neg then Int32(-val) else val, end)
  }

  lemma ReadStep(s: seq<int>, p: nat, base: int, val: int)
    ensures ReadDigits(s, p, base, val) ==
            if 0 <= DigitOf(ByteAt(s, p)) < base then
              ReadDigits(s, p + 1, base, Int32(val * base + DigitOf(ByteAt(s, p))))
            else (val, p)
    ensures 0 <= DigitOf(ByteAt(s, p)) ==> p < |s|
  {}

  lemma SkipStep(s: seq<int>, p: nat)
    requires p <= |s|
    ensures SkipBlanks(s, p) ==
            if ByteAt(s, p) == SPACE || ByteAt(s, p) == '\t' as int then SkipBlanks(s, p + 1) else p
    ensures ByteAt(s, p) == SPACE || ByteAt(s, p) == '\t' as int ==> p < |s|
  {}

  method StrtolLoop(s: seq<int>, base: int) returns (val: int, end: nat)
    ensures (val, end) == Strtol(s, base)
  {
    hide ReadDigits, SkipBlanks, Int32, DigitOf;
    var p, neg, b := 0, false, base;
    val := 0;
    SkipStep(s, p);
    while ByteAt(s, p) == SPACE || ByteAt(s, p) == '\t' as int
      invariant 0 <= p <= |s| && SkipBlanks(s, p) == SkipBlanks(s, 0)
      invariant ByteAt(s, p) != SPACE && ByteAt(s, p) != '\t' as int ==> SkipBlanks(s, p) == p
      decreases |s| - p
    {
      SkipStep(s, p);
      p := p + 1;
      SkipStep(s, p);
    }
    if ByteAt(s, p) == '+' as int {
      p := p + 1;
    } else if ByteAt(s, p) == MINUS {
      p, neg := p + 1, true;
    }
    if (b == 0 || b == 16) && ByteAt(s, p) == '0' as int && ByteAt(s, p + 1) == 'x' as int {
      p, b := p + 2, 16;
    } else if b == 0 && ByteAt(s, p) == '0' as int {
      p, b := p + 1, 8;
    } else if b == 0 {
      b := 10;
    }
    ghost var start := p;
    while true
      invariant 0 <= p && ReadDigits(s, p, b, val) == ReadDigits(s, start, b, 0)
      decreases |s| - p
    {
      ReadStep(s, p, b, val);
      var dig := DigitOf(ByteAt(s, p));
      if dig < 0 {
        break;
      }
      if dig >= b {
        break;
      }
      p, val := p + 1, Int32(val * b + dig);
    }
    return if neg then Int32(-val) else val, p;
  }

  // -------------------------------------------------------------------------
  // Reading back what was printed
  // -------------------------------------------------------------------------

  // The number a digit string denotes.
  function Value(ds: seq<nat>, base: nat): nat {
    if ds == [] then 0 else Value(ds[..|ds| - 1], base) * base + ds[|ds| - 1]
  }

  lemma ValueAppend(ds: seq<nat>, d: nat, base: nat)
    ensures Value(ds + [d], base) == Value(ds, base) * base + d
  {
    assert (ds + [d])[..|ds|] == ds;
  }

  lemma Divides(num: nat, base: nat)
    requires base > 0
    ensures num / base * base + num % base == num
  {}

  lemma {:induction false} DigitsValue(num: nat, base: nat)
    requires 2 <= base
    ensures Value(Digits(num, base), base) == num
    decreases num
  {
    if num >= base {
      QuotientSmaller(num, base);
      DigitsValue(num / base, base);
      DigitsStep(num, base);
      ValueAppend(Digits(num / base, base), num % base, base);
      Divides(num, base);
      hide Digits, Value;
    } else {
      assert Value([num][..0], base) == 0;
    }
  }

  lemma {:induction false} PrefixValue(ds: seq<nat>, base: nat, n: nat)
    requires base >= 1 && n <= |ds|
    ensures Value(ds[..n], base) <= Value(ds, base)
    decreases |ds|
  {
    if n < |ds| {
      var head := ds[..|ds| - 1];
      PrefixValue(head, base, n);
      assert head[..n] == ds[..n];
      assert Value(head, base) * base >= Value(head, base);
    } else {
      assert ds[..n] == ds;
    }
  }

  // Reading from digit n on, with the first n digits already in val.
  lemma {:induction false} ReadsDigits(pre: seq<int>, ds: seq<nat>, base: nat, n: nat)
    requires 2 <= base <= 16 && n <= |ds|
    requires forall i :: 0 <= i < |ds| ==> ds[i] < base
    requires Value(ds, base) < 0x8000_0000
    ensures ReadDigits(pre + Chars(ds), |pre| + n, base, Value(ds[..n], base)) == (Value(ds, base), |pre| + |ds|)
    decreases |ds| - n
  {
    var s := pre + Chars(ds);
    if n < |ds| {
      assert s[|pre| + n] == DigitChar(ds[n]);
      assert DigitOf(DigitChar(ds[n])) == ds[n];
      assert ds[..n + 1][..n] == ds[..n];
      assert Value(ds[..n + 1], base) == Value(ds[..n], base) * base + ds[n];
      PrefixValue(ds, base, n + 1);
      ReadsDigits(pre, ds, base, n + 1);
    } else {
      assert ds[..n] == ds;
    }
  }

  // Padding with zeros puts zero digits in front.
  function ZeroPadded(ds: seq<nat>, n: int): (r: seq<nat>)
    ensures |r| == |ds| + if n > 0 then n else 0
  {
    if n <= 0 then ds else [0] + ZeroPadded(ds, n - 1)
  }

  lemma {:induction false} LeadingZero(ds: seq<nat>, base: nat)
    ensures Value([0] + ds, base) == Value(ds, base)
    decreases |ds|
  {
    if ds == [] {
      assert ([0] + ds)[..0] == [];
    } else {
      var n := |ds| - 1;
      assert ([0] + ds)[..n + 1] == [0] + ds[..n];
      LeadingZero(ds[..n], base);
    }
  }

  lemma {:induction false} ZeroPaddedValue(ds: seq<nat>, base: nat, n: int)
    requires base >= 1 && forall i :: 0 <= i < |ds| ==> ds[i] < base
    ensures Value(ZeroPadded(ds, n), base) == Value(ds, base)
    ensures forall i :: 0 <= i < |ZeroPadded(ds, n)| ==> ZeroPadded(ds, n)[i] < base
    decreases n
  {
    if n > 0 {
      ZeroPaddedValue(ds, base, n - 1);
      LeadingZero(ZeroPadded(ds, n - 1), base);
    }
  }

  lemma {:induction false} ZeroPaddedChars(ds: seq<nat>, n: int)
    requires forall i :: 0 <= i < |ds| ==> ds[i] < 16
    ensures forall i :: 0 <= i < |ZeroPadded(ds, n)| ==> ZeroPadded(ds, n)[i] < 16
    ensures Chars(ZeroPadded(ds, n)) == Repeat('0' as int, n) + Chars(ds)
    decreases n
  {
    if n > 0 {
      ZeroPaddedChars(ds, n - 1);
      var zs := ZeroPadded(ds, n);
      forall i | 0 <= i < |zs| ensures Chars(zs)[i] == (Repeat('0' as int, n) + Chars(ds))[i] {
        if i > 0 {
          assert Chars(zs)[i] == Chars(ZeroPadded(ds, n - 1))[i - 1];
        }
      }
    }
  }

  lemma {:induction false} SkipsBlanks(n: int, rest: seq<int>, i: nat)
    requires 0 <= i <= |Repeat(SPACE, n)| && rest != [] && rest[0] != SPACE && rest[0] != '\t' as int
    ensures SkipBlanks(Repeat(SPACE, n) + rest, i) == |Repeat(SPACE, n)|
    decreases |Repeat(SPACE, n)| - i
  {
    if i < |Repeat(SPACE, n)| {
      SkipsBlanks(n, rest, i + 1);
    }
  }

  lemma DigitCharFacts(d: nat)
    requires d < 16
    ensures var c := DigitChar(d);
      DigitOf(c) == d && c != SPACE && c != '\t' as int && c != MINUS && c != '+' as int && c != 'x' as int && c != 0
  {}

  // From a position where the digits start, strtol reads them all.
  lemma ReadsFrom(pre: seq<int>, ds: seq<nat>, base: nat)
    requires 2 <= base <= 16 && ds != [] && Value(ds, base) < 0x8000_0000
    requires forall i :: 0 <= i < |ds| ==> ds[i] < base
    ensures Prefix(pre + Chars(ds), |pre|, base) == (|pre|, base)
    ensures ReadDigits(pre + Chars(ds), |pre|, base, 0) == (Value(ds, base), |pre| + |ds|)
  {
    var s := pre + Chars(ds);
    DigitCharFacts(ds[0]);
    if |ds| > 1 {
      DigitCharFacts(ds[1]);
      assert s[|pre| + 1] == DigitChar(ds[1]);
    }
    assert ByteAt(s, |pre| + 1) != 'x' as int;
    assert ds[..0] == [];
    ReadsDigits(pre, ds, base, 0);
  }

  // Blanks, an optional minus sign, digits: strtol returns the signed value and the end of the text.
  lemma ParsesText(n: int, neg: bool, ds: seq<nat>, base: nat)
    requires 2 <= base <= 16 && ds != [] && Value(ds, base) < 0x8000_0000
    requires forall i :: 0 <= i < |ds| ==> ds[i] < base
    ensures var text := Repeat(SPACE, n) + (if neg then [MINUS] else []) + Chars(ds);
      var v: int := Value(ds, base);
      Strtol(text, base) == (if neg then -v else v, |text|)
  {
    hide Repeat, ReadDigits, SkipBlanks, Prefix, Value;
    var blanks, sign := Repeat(SPACE, n), if neg then [MINUS] else [];
    var rest := sign + Chars(ds);
    var text := blanks + sign + Chars(ds);
    DigitCharFacts(ds[0]);
    assert text == blanks + rest;
    SkipsBlanks(n, rest, 0);
    assert ByteAt(text, |blanks|) == rest[0];
    ReadsFrom(blanks + sign, ds, base);
    assert |blanks + sign| == |blanks| + |sign|;
  }

  // The padded digits as blanks and digits: zeros count as digits.
  lemma FieldShape(num: nat, base: nat, width: int, padc: int) returns (n: int, ds: seq<nat>)
    requires 2 <= base <= 16 && (padc == SPACE || padc == '0' as int)
    ensures ds != [] && Value(ds, base) == num && forall i :: 0 <= i < |ds| ==> ds[i] < base
    ensures Field(num, base, width, padc) == Repeat(SPACE, n) + Chars(ds)
    ensures n == if padc == SPACE then width - |Digits(num, base)| else 0
  {
    hide Value;
    var d := Digits(num, base);
    DigitsValue(num, base);
    if padc == SPACE {
      n, ds := width - |d|, d;
    } else {
      n, ds := 0, ZeroPadded(d, width - |d|);
      ZeroPaddedValue(d, base, width - |d|);
      ZeroPaddedChars(d, width - |d|);
      assert Field(num, base, width, padc) == [] + Chars(ds);
    }
  }

  // A number printed in base 2..16, padded with blanks or zeros to any width, is read back by strtol in
  // the same base, to the end of the text.
  lemma ParsesBack(num: nat, base: nat, width: int, padc: int)
    requires 2 <= base <= 16 && num < 0x8000_0000 && (padc == SPACE || padc == '0' as int)
    ensures Strtol(Field(num, base, width, padc), base) == (num, |Field(num, base, width, padc)|)
  {
    hide Field, Strtol, Value, Repeat;
    var n, ds := FieldShape(num, base, width, padc);
    ParsesText(n, false, ds, base);
    assert Repeat(SPACE, n) + [] + Chars(ds) == Repeat(SPACE, n) + Chars(ds);
  }

  // %d of a negative number above -2^31 is read back exactly when no blank comes between the sign and
  // the digits.
  lemma NegativeParsesBackIff(v: int, width: int, padc: int)
    requires -0x8000_0000 < v < 0 && (padc == SPACE || padc == '0' as int)
    ensures var text := [MINUS] + Field(-v, 10, width, padc);
      Strtol(text, 10) == (v, |text|) <==> padc == '0' as int || width <= |Digits(-v, 10)|
  {
    hide Field, Value, ReadDigits, Digits, Strtol;
    var text := [MINUS] + Field(-v, 10, width, padc);
    var n, ds := FieldShape(-v, 10, width, padc);
    if n <= 0 {
      ParsesText(0, true, ds, 10);
      assert Repeat(SPACE, 0) + [MINUS] + Chars(ds) == text;
    } else {
      assert text[1] == SPACE;
      SignThenBlank(text);
    }
  }

  lemma SignThenBlank(text: seq<int>)
    requires |text| > 1 && text[0] == MINUS && text[1] == SPACE
    ensures Strtol(text, 10) == (0, 1)
  {
    assert SkipBlanks(text, 0) == 0;
  }
}
