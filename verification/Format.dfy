/** vprintfmt: the character stream a format and its arguments stand for, and the loops that send it. */
module Format {
  import opened Wrappers
  import opened Bits
  import opened Numbers

  // One variable argument; reading one of the wrong kind is undefined in C and yields 0 or NULL here.
  datatype Arg = Num(v: int) | Str(s: Option<seq<int>>)

  function IntArg(args: seq<Arg>): int { if args != [] && args[0].Num? then args[0].v else 0 }

  function StrArg(args: seq<Arg>): Option<seq<int>> { if args != [] && args[0].Str? then args[0].s else None }

  function Rest(args: seq<Arg>): seq<Arg> { if args == [] then [] else args[1..] }

  const PERCENT: int := '%' as int
  const TWO64: int := 0x1_0000_0000_0000_0000
  const MAXERROR: int := 8

  function Int64(x: int): int { (x + 0x8000_0000_0000_0000) % TWO64 - 0x8000_0000_0000_0000 }

  lemma Int64Wraps(x: int)
    ensures -0x8000_0000_0000_0000 <= Int64(x) < 0x8000_0000_0000_0000 && (x - Int64(x)) % TWO64 == 0
  {}

  function GetInt(v: int, lflag: nat): int { if lflag >= 2 then Int64(v) else Int32(v) }

  function GetUint(v: int, lflag: nat): nat { if lflag >= 2 then v % TWO64 else v % 0x1_0000_0000 }

  function Bytes(s: string): (r: seq<int>)
    ensures |r| == |s| && forall i :: 0 <= i < |s| ==> r[i] == s[i] as int
  {
    seq(|s|, i requires 0 <= i < |s| => s[i] as int)
  }

  // The flags of one conversion.
  datatype Spec = Spec(padc: int, width: int, precision: int, lflag: nat, altflag: bool)

  const DEFAULT: Spec := Spec(SPACE, -1, -1, 0, false)

  function Processed(sp: Spec, p: int): Spec {
    if sp.width < 0 then sp.(width := p, precision := -1) else sp.(precision := p)
  }

  predicate IsDigit(c: int) { '0' as int <= c <= '9' as int }

  // The width field: fmt[i] is its current digit; the value and the position of the first non-digit.
  function ReadWidth(fmt: seq<int>, i: nat, acc: int): (int, nat)
    requires i < |fmt|
    ensures i < ReadWidth(fmt, i, acc).1 <= |fmt|
    decreases |fmt| - i
  {
    var p := acc * 10 + fmt[i] - '0' as int;
    if i + 1 < |fmt| && IsDigit(fmt[i + 1]) then ReadWidth(fmt, i + 1, p) else (p, i + 1)
  }

  // From just after '%': the conversion character, the position after it, its flags, the arguments left.
  datatype Parsed = Parsed(ch: int, next: nat, sp: Spec, args: seq<Arg>)

  function ParseStep(fmt: seq<int>, i: nat, sp: Spec, args: seq<Arg>): Option<(nat, Spec, seq<Arg>)>
    ensures ParseStep(fmt, i, sp, args).Some? ==> i < ParseStep(fmt, i, sp, args).value.0 <= |fmt|
  {
    var ch := ByteAt(fmt, i);
    if i >= |fmt| then None
    else if ch == MINUS then Some((i + 1, sp.(padc := MINUS), args))
    else if ch == '0' as int then Some((i + 1, sp.(padc := '0' as int), args))
    else if IsDigit(ch) then var (p, j) := ReadWidth(fmt, i, 0); Some((j, Processed(sp, p), args))
    else if ch == '*' as int then Some((i + 1, Processed(sp, IntArg(args)), Rest(args)))
    else if ch == '.' as int then Some((i + 1, if sp.width < 0 then sp.(width := 0) else sp, args))
    else if ch == '#' as int then Some((i + 1, sp.(altflag := true), args))
    else if ch == 'l' as int then Some((i + 1, sp.(lflag := sp.lflag + 1), args))
    else None
  }

  function ParseSpec(fmt: seq<int>, i: nat, sp: Spec, args: seq<Arg>): Parsed
    decreases |fmt| - i
  {
    match ParseStep(fmt, i, sp, args)
    case None => Parsed(ByteAt(fmt, i), i + 1, sp, args)
    case Some((j, sp', args')) => ParseSpec(fmt, j, sp', args')
  }

  // -------------------------------------------------------------------------
  // Conversions
  // -------------------------------------------------------------------------

  function Signed(num: int, base: nat, sp: Spec): seq<int>
    requires 2 <= base <= 16
  {
    if num < 0 then [MINUS] + Field(-num, base, sp.width, sp.padc) else Field(num, base, sp.width, sp.padc)
  }

  // A char read through a `const char *`, as vprintfmt passes it on.
  function CharOf(b: int, alt: bool): int {
    var c := if b >= 128 then b - 256 else b;
    if alt && (c < SPACE || c > '~' as int) then '?' as int else c
  }

  function Shown(s: seq<int>, alt: bool): (r: seq<int>)
    ensures |r| == |s| && forall i :: 0 <= i < |r| ==> r[i] == CharOf(s[i], alt)
  {
    seq(|s|, i requires 0 <= i < |s| => CharOf(s[i], alt))
  }

  // strnlen(p, precision)
  function Cut(s: seq<int>, precision: int): nat { if precision < 0 || precision > |s| then |s| else precision }

  function StringField(s: seq<int>, sp: Spec): seq<int> {
    var n := Cut(s, sp.precision);
    (if sp.padc != MINUS then Repeat(sp.padc, sp.width - n) else [])
    + Shown(s[..n], sp.altflag)
    + (if sp.padc == MINUS then Repeat(SPACE, sp.width - n) else [])
  }

  function Abs(x: int): nat { if x < 0 then -x else x }

  function ErrorString(err: nat): Option<string> {
    if err == 1 then Some("unspecified error")
    else if err == 2 then Some("bad environment")
    else if err == 3 then Some("invalid parameter")
    else if err == 4 then Some("out of memory")
    else if err == 5 then Some("out of environments")
    else if err == 6 then Some("segmentation fault")
    else None
  }

  function ErrorText(err: nat): seq<int> {
    match if err >= MAXERROR then None else ErrorString(err)
    case Some(s) => StringField(Bytes(s), DEFAULT)
    case None => Bytes("error ") + Signed(err, 10, DEFAULT)
  }

  predicate TakesInt(ch: int) { ch in [99, 101, 100, 117, 111, 112, 120] }   // c e d u o p x

  predicate Known(ch: int) { TakesInt(ch) || ch == 's' as int || ch == PERCENT }

  // What one conversion sends.
  function Convert(ch: int, sp: Spec, args: seq<Arg>): seq<int>
    requires Known(ch)
  {
    var v := IntArg(args);
    if ch == 'c' as int then [v]
    else if ch == 'e' as int then ErrorText(Abs(v))
    else if ch == 's' as int then
      StringField(match StrArg(args) { case Some(s) => s case None => Bytes("(null)") }, sp)
    else if ch == 'd' as int then Signed(GetInt(v, sp.lflag), 10, sp)
    else if ch == 'u' as int then Field(GetUint(v, sp.lflag), 10, sp.width, sp.padc)
    else if ch == 'o' as int then Field(GetUint(v, sp.lflag), 8, sp.width, sp.padc)
    else if ch == 'p' as int then Bytes("0x") + Field(v % 0x1_0000_0000, 16, sp.width, sp.padc)
    else if ch == 'x' as int then Field(GetUint(v, sp.lflag), 16, sp.width, sp.padc)
    else [PERCENT]
  }

  lemma ParseAdvances(fmt: seq<int>, i: nat, sp: Spec, args: seq<Arg>)
    ensures ParseSpec(fmt, i, sp, args).next > i
    decreases |fmt| - i
  {}

  // The stream from position i of the format on.  An unknown conversion, or the end of the format in
  // the middle of one, sends '%' and goes on right after the '%'.
  function Stream(fmt: seq<int>, i: nat, args: seq<Arg>): seq<int>
    decreases |fmt| - i
  {
    if i >= |fmt| then []
    else if fmt[i] != PERCENT then [fmt[i]] + Stream(fmt, i + 1, args)
    else
      ParseAdvances(fmt, i + 1, DEFAULT, args);
      var p := ParseSpec(fmt, i + 1, DEFAULT, args);
      if Known(p.ch) then
        Convert(p.ch, p.sp, p.args) + Stream(fmt, p.next, if p.ch == PERCENT then p.args else Rest(p.args))
      else [PERCENT] + Stream(fmt, i + 1, p.args)
  }

  lemma StreamStep(fmt: seq<int>, i: nat, args: seq<Arg>)
    ensures i >= |fmt| ==> Stream(fmt, i, args) == []
    ensures i < |fmt| && fmt[i] != PERCENT ==> Stream(fmt, i, args) == [fmt[i]] + Stream(fmt, i + 1, args)
    ensures i < |fmt| && fmt[i] == PERCENT ==>
      var p := ParseSpec(fmt, i + 1, DEFAULT, args);
      && p.next > i + 1
      && Stream(fmt, i, args) ==
         if Known(p.ch) then
           Convert(p.ch, p.sp, p.args) + Stream(fmt, p.next, if p.ch == PERCENT then p.args else Rest(p.args))
         else [PERCENT] + Stream(fmt, i + 1, p.args)
  {
    hide Convert, ParseSpec, Known;
    if i < |fmt| && fmt[i] == PERCENT {
      ParseAdvances(fmt, i + 1, DEFAULT, args);
    }
  }

  // printfmt(putch, putdat, "error %d", err) and printfmt(putch, putdat, "%s", p) send ErrorText.
  lemma ErrorTextIsStream(err: nat)
    requires err < 0x8000_0000
    ensures ErrorText(err) == match if err >= MAXERROR then None else ErrorString(err)
                              { case Some(s) => Stream(Bytes("%s"), 0, [Str(Some(Bytes(s)))])
                                case None => Stream(Bytes("error %d"), 0, [Num(err)]) }
  {
    var o := if err >= MAXERROR then None else ErrorString(err);
    if o.Some? {
      StreamOfS(Bytes(o.value));
    } else {
      StreamOfError(err);
    }
  }

  lemma StreamOfS(s: seq<int>)
    ensures Stream(Bytes("%s"), 0, [Str(Some(s))]) == StringField(s, DEFAULT)
  {
    var f, a := Bytes("%s"), [Str(Some(s))];
    assert f == [PERCENT, 's' as int];
    assert ParseSpec(f, 1, DEFAULT, a) == Parsed('s' as int, 2, DEFAULT, a);
    assert Stream(f, 2, Rest(a)) == [];
  }

  lemma StreamOfError(err: nat)
    requires err < 0x8000_0000
    ensures Stream(Bytes("error %d"), 0, [Num(err)]) == Bytes("error ") + Signed(err, 10, DEFAULT)
  {
    var f, a := Bytes("error %d"), [Num(err)];
    assert f == Bytes("error ") + [PERCENT, 'd' as int];
    assert ParseSpec(f, 7, DEFAULT, a) == Parsed('d' as int, 8, DEFAULT, a);
    assert GetInt(err, 0) == err;
    assert Stream(f, 6, a) == Signed(err, 10, DEFAULT) + [];
    StreamOfPlain(f, 6, 0, a);
  }

  // Characters other than '%' are sent as they are.
  lemma {:induction false} StreamOfPlain(fmt: seq<int>, n: nat, i: nat, args: seq<Arg>)
    requires i <= n <= |fmt| && forall k :: i <= k < n ==> fmt[k] != PERCENT
    ensures Stream(fmt, i, args) == fmt[i..n] + Stream(fmt, n, args)
    decreases n - i
  {
    hide Stream;
    var tail := Stream(fmt, n, args);
    if i < n {
      StreamStep(fmt, i, args);
      StreamOfPlain(fmt, n, i + 1, args);
      assert [fmt[i]] + (fmt[i + 1..n] + tail) == fmt[i..n] + tail;
    } else {
      assert fmt[i..n] + tail == tail;
    }
  }

  // The base of an integer conversion.
  function BaseOf(ch: int): nat {
    if ch == 'd' as int || ch == 'u' as int then 10 else if ch == 'o' as int then 8 else 16
  }

  // What %d, %u, %o and %x print, with any width, blank or zero padding and any number of l, strtol
  // reads back in the base the conversion is documented to use.
  lemma ConversionParsesBack(ch: int, sp: Spec, v: int)
    requires ch in ['d' as int, 'u' as int, 'o' as int, 'x' as int]
    requires 0 <= v < 0x8000_0000 && (sp.padc == SPACE || sp.padc == '0' as int)
    ensures var text := Convert(ch, sp, [Num(v)]); Strtol(text, BaseOf(ch)) == (v, |text|)
  {
    hide Strtol, Field;
    assert GetInt(v, sp.lflag) == v && GetUint(v, sp.lflag) == v;
    ParsesBack(v, BaseOf(ch), sp.width, sp.padc);
  }

  // %p is read back, prefix included, exactly when no blank falls between prefix and digits.
  lemma PointerParsesBackIff(sp: Spec, v: int)
    requires 0 <= v < 0x8000_0000 && (sp.padc == SPACE || sp.padc == '0' as int)
    ensures var text := Convert('p' as int, sp, [Num(v)]);
      Strtol(text, 16) == (v, |text|) <==> sp.padc == '0' as int || sp.width <= |Digits(v, 16)|
  {
    hide Field, Value, Digits, ReadDigits, Strtol;
    var text := Convert('p' as int, sp, [Num(v)]);
    var prefix := Bytes("0x");
    var n, ds := FieldShape(v, 16, sp.width, sp.padc);
    assert text == prefix + Field(v, 16, sp.width, sp.padc);
    assert text[0] == '0' as int && text[1] == 'x' as int;
    AfterPrefix(text);
    if n <= 0 {
      assert text == prefix + Chars(ds);
      ReadsFrom(prefix, ds, 16);
    } else {
      assert text[2] == SPACE;
      ReadStep(text, 2, 16, 0);
    }
  }

  lemma AfterPrefix(text: seq<int>)
    requires |text| > 2 && text[0] == '0' as int && text[1] == 'x' as int
    ensures Strtol(text, 16) == ReadDigits(text, 2, 16, 0)
  {
    hide ReadDigits;
    assert SkipBlanks(text, 0) == 0;
  }

  // A string conversion occupies exactly the width, or the string when that is longer.
  lemma StringFieldLength(s: seq<int>, sp: Spec)
    ensures |StringField(s, sp)| == if sp.width > Cut(s, sp.precision) then sp.width else Cut(s, sp.precision)
  {}
}
