/** What strtol makes of a text, by the parts of the text: blanks, a sign, the base prefix, digits in
    either case, and whatever follows them.  Nothing here follows the loops of strtol. */
module NumberText {
  import opened Numbers

  datatype Sign = NoSign | Plus | Minus

  // Prefixes "0x" and "0".
  datatype Lead = NoLead | HexLead | OctLead

  // A digit and the case it is written in.
  datatype Digit = Digit(value: nat, capital: bool)

  datatype Numeral = Numeral(blanks: seq<int>, sign: Sign, lead: Lead, digits: seq<Digit>, tail: seq<int>)

  // 0 to 9, then a to z or A to Z.
  function Letter(d: nat, capital: bool): int {
    if d < 10 then '0' as int + d else (if capital then 'A' as int else 'a' as int) + d - 10
  }

  function SignText(sign: Sign): seq<int> {
    match sign
    case NoSign => []
    case Plus => ['+' as int]
    case Minus => ['-' as int]
  }

  function LeadText(lead: Lead): seq<int> {
    match lead
    case NoLead => []
    case HexLead => ['0' as int, 'x' as int]
    case OctLead => ['0' as int]
  }

  function Spelled(ds: seq<Digit>): (r: seq<int>)
    ensures |r| == |ds|
  {
    seq(|ds|, i requires 0 <= i < |ds| => Letter(ds[i].value, ds[i].capital))
  }

  function Values(ds: seq<Digit>): (r: seq<nat>)
    ensures |r| == |ds|
  {
    seq(|ds|, i requires 0 <= i < |ds| => ds[i].value)
  }

  function AllText(n: Numeral): seq<int> {
    n.blanks + (SignText(n.sign) + (LeadText(n.lead) + (Spelled(n.digits) + n.tail)))
  }

  // The base a number is read in: 0 asks for the one its prefix announces.
  function BaseUsed(base: nat, lead: Lead): nat {
    match lead
    case HexLead => 16
    case OctLead => 8
    case NoLead => if base == 0 then 10 else base
  }

  // c is a digit of the base, in either case.
  predicate IsDigitOf(c: int, base: nat) {
    exists d: nat, capital: bool :: d < base && c == Letter(d, capital)
  }

  // The parts are what they are read as: prefixes only where the base allows them, digits of the base,
  // and a tail that does not go on with them.
  predicate Proper(n: Numeral, base: nat) {
    var b := BaseUsed(base, n.lead);
    && (base == 0 || 2 <= base <= 36)
    && (forall i :: 0 <= i < |n.blanks| ==> n.blanks[i] == ' ' as int || n.blanks[i] == '\t' as int)
    && (n.lead.HexLead? ==> base == 0 || base == 16) && (n.lead.OctLead? ==> base == 0)
    && (forall i :: 0 <= i < |n.digits| ==> n.digits[i].value < b)
    && (n.tail != [] ==> !IsDigitOf(n.tail[0], b))
    && Unambiguous(n, base)
  }

  // No prefix is taken for one, and no blank or sign comes where there could be more of them.
  predicate Unambiguous(n: Numeral, base: nat) {
    && (n.lead.OctLead? && n.digits == [] && n.tail != [] ==> n.tail[0] != 'x' as int)
    && (n.lead.NoLead? && base == 0 && n.digits != [] ==> n.digits[0].value != 0)
    && (n.lead.NoLead? && base == 16 && |n.digits| == 1 && n.digits[0].value == 0 && n.tail != [] ==>
          n.tail[0] != 'x' as int)
    && (n.lead.NoLead? && n.digits == [] && n.tail != [] ==>
          (n.sign.NoSign? ==> n.tail[0] !in [' ' as int, '\t' as int, '+' as int, '-' as int]))
  }

  lemma DigitIs(c: int, base: nat)
    requires base <= 36
    ensures DigitIn(c, base) <==> IsDigitOf(c, base)
  {
    if DigitIn(c, base) {
      var capital := 'A' as int <= c <= 'Z' as int;
      assert c == Letter(DigitOf(c), capital);
    }
  }

  lemma LetterFacts(d: nat, capital: bool)
    requires d < 36
    ensures var c := Letter(d, capital);
      && DigitOf(c) == d && c != SPACE && c != '\t' as int && c != MINUS && c != '+' as int
      && (c == '0' as int <==> d == 0) && (c == 'x' as int ==> d == 33)
  {}

  lemma {:induction false} SkipsTo(s: seq<int>, i: nat, n: nat)
    requires i <= n <= |s| && ByteAt(s, n) != SPACE && ByteAt(s, n) != '\t' as int
    requires forall k :: i <= k < n ==> s[k] == SPACE || s[k] == '\t' as int
    ensures SkipBlanks(s, i) == n
    decreases n - i
  {
    if i < n {
      SkipsTo(s, i + 1, n);
    }
  }

  // Reading from digit q on, with the first q digits in val.
  lemma {:induction false} ReadsAll(s: seq<int>, k: nat, ds: seq<Digit>, q: nat, base: nat)
    requires 2 <= base <= 36 && q <= |ds| && k + |ds| <= |s| && s[k..k + |ds|] == Spelled(ds)
    requires forall i :: 0 <= i < |ds| ==> ds[i].value < base
    requires k + |ds| < |s| ==> !DigitIn(s[k + |ds|], base)
    requires Value(Values(ds), base) < 0x8000_0000
    ensures ReadDigits(s, k + q, base, Value(Values(ds)[..q], base)) == (Value(Values(ds), base), k + |ds|)
    decreases |ds| - q
  {
    hide Value, ReadDigits, DigitOf;
    var vs := Values(ds);
    ReadStep(s, k + q, base, Value(vs[..q], base));
    if q < |ds| {
      assert s[k + q] == s[k..k + |ds|][q] == Letter(ds[q].value, ds[q].capital);
      LetterFacts(ds[q].value, ds[q].capital);
      assert vs[..q + 1] == vs[..q] + [ds[q].value];
      ValueAppend(vs[..q], ds[q].value, base);
      PrefixValue(vs, base, q + 1);
      ReadsAll(s, k, ds, q + 1, base);
    } else {
      assert vs[..q] == vs;
    }
  }

  // Where the parts of a text end.
  function SignAt(n: Numeral): nat { |n.blanks| }

  function LeadAt(n: Numeral): nat { SignAt(n) + |SignText(n.sign)| }

  function DigitsAt(n: Numeral): nat { LeadAt(n) + |LeadText(n.lead)| }

  function TailAt(n: Numeral): nat { DigitsAt(n) + |n.digits| }

  lemma TextParts(n: Numeral)
    ensures var s := AllText(n);
      && |s| == TailAt(n) + |n.tail|
      && s[..SignAt(n)] == n.blanks && s[SignAt(n)..LeadAt(n)] == SignText(n.sign)
      && s[LeadAt(n)..DigitsAt(n)] == LeadText(n.lead) && s[DigitsAt(n)..TailAt(n)] == Spelled(n.digits)
      && s[TailAt(n)..] == n.tail
  {
    hide SignText, LeadText, Spelled;
  }

  // The first character of the digits and what follows them.
  lemma DigitsStart(n: Numeral, base: nat)
    requires Proper(n, base)
    ensures var s, k := AllText(n), DigitsAt(n);
      && |s| == TailAt(n) + |n.tail|
      && (n.digits != [] ==> ByteAt(s, k) == Letter(n.digits[0].value, n.digits[0].capital))
      && (|n.digits| > 1 ==> ByteAt(s, k + 1) == Letter(n.digits[1].value, n.digits[1].capital))
      && ByteAt(s, TailAt(n)) == ByteAt(n.tail, 0)
  {
    hide SignText, LeadText, AllText, Unambiguous, IsDigitOf;
    TextParts(n);
    var s, k, e := AllText(n), DigitsAt(n), TailAt(n);
    if n.digits != [] {
      assert s[k] == s[k..e][0] == Spelled(n.digits)[0];
    }
    if |n.digits| > 1 {
      assert s[k + 1] == s[k..e][1] == Spelled(n.digits)[1];
    }
    if n.tail != [] {
      assert s[e] == s[e..][0] == n.tail[0];
    }
  }

  lemma TailStops(n: Numeral, base: nat)
    requires Proper(n, base)
    ensures var c := ByteAt(n.tail, 0);
      && !DigitIn(c, BaseUsed(base, n.lead)) && c != '0' as int
  {
    DigitIs(ByteAt(n.tail, 0), BaseUsed(base, n.lead));
    LetterFacts(0, false);
    assert n.tail != [] ==> n.tail[0] != Letter(0, false);
    hide Unambiguous;
  }

  lemma ReadsPrefix(n: Numeral, base: nat)
    requires Proper(n, base)
    ensures Prefix(AllText(n), LeadAt(n), base) == (DigitsAt(n), BaseUsed(base, n.lead))
  {
    hide AllText, IsDigitOf;
    DigitsStart(n, base);
    TailStops(n, base);
    LeadStands(n);
    if n.digits != [] {
      LetterFacts(n.digits[0].value, n.digits[0].capital);
    }
    if |n.digits| > 1 {
      LetterFacts(n.digits[1].value, n.digits[1].capital);
    }
  }

  lemma LeadStands(n: Numeral)
    ensures var s, j := AllText(n), LeadAt(n);
      && |s| == TailAt(n) + |n.tail|
      && (!n.lead.NoLead? ==> s[j] == '0' as int) && (n.lead.HexLead? ==> s[j + 1] == 'x' as int)
  {
    hide AllText, SignText, Spelled;
    TextParts(n);
    var s, j, k := AllText(n), LeadAt(n), DigitsAt(n);
    var lead := LeadText(n.lead);
    assert s[j..k] == lead;
    if !n.lead.NoLead? {
      assert s[j] == s[j..k][0] == lead[0];
    }
    if n.lead.HexLead? {
      assert s[j + 1] == s[j..k][1] == lead[1];
    }
  }

  lemma ReadsSign(n: Numeral, base: nat)
    requires Proper(n, base)
    ensures var c := ByteAt(AllText(n), SignAt(n));
      && c != SPACE && c != '\t' as int
      && (c == MINUS <==> n.sign.Minus?) && (c == '+' as int <==> n.sign.Plus?)
  {
    hide AllText, IsDigitOf;
    DigitsStart(n, base);
    TextParts(n);
    var s, i, j := AllText(n), SignAt(n), LeadAt(n);
    if !n.sign.NoSign? {
      assert s[i] == s[i..i + 1][0] == SignText(n.sign)[0];
    } else if !n.lead.NoLead? {
      LeadStands(n);
    } else if n.digits != [] {
      LetterFacts(n.digits[0].value, n.digits[0].capital);
    }
  }

  // The value is that of the digits in the base used, negated after '-', and *endptr is left at the tail.
  lemma StrtolReads(n: Numeral, base: nat)
    requires Proper(n, base) && Value(Values(n.digits), BaseUsed(base, n.lead)) < 0x8000_0000
    ensures var v: int := Value(Values(n.digits), BaseUsed(base, n.lead));
      Strtol(AllText(n), base) == (if n.sign.Minus? then -v else v, |AllText(n)| - |n.tail|)
  {
    hide AllText, Value, ReadDigits, SkipBlanks, Prefix, IsDigitOf, Unambiguous, DigitOf;
    var s, b, k := AllText(n), BaseUsed(base, n.lead), DigitsAt(n);
    TextParts(n);
    assert forall q :: 0 <= q < SignAt(n) ==> s[q] == n.blanks[q];
    ReadsSign(n, base);
    SkipsTo(s, 0, SignAt(n));
    ReadsPrefix(n, base);
    DigitsStart(n, base);
    TailStops(n, base);
    assert Values(n.digits)[..0] == [] && Value([], b) == 0 by { NoValue(b); }
    ReadsAll(s, k, n.digits, 0, b);
  }

  lemma NoValue(base: nat)
    ensures Value([], base) == 0
  {}
}
