/** What printf formats mean, read off their text: a format is a row of plain characters and items such
    as %08x, and each item stands for the characters its documentation gives it.  Nothing here follows the
    switch of vprintfmt; the theorem says that the switch agrees. */
module FormatText {
  import opened Wrappers
  import opened Numbers
  import opened Format

  datatype Flag = NoFlag | ZeroFlag | DashFlag

  // A width, or a precision after its dot; only a precision may have no digits.
  datatype Count = Absent | Bare | Fixed(n: nat) | Star(v: int)

  // A conversion together with its argument.
  datatype Conv =
    | Decimal(v: int)
    | Unsigned(v: int)
    | Octal(v: int)
    | Hex(v: int)
    | Pointer(v: int)
    | Character(v: int)
    | ErrorCode(v: int)
    | Text(s: Option<seq<int>>)
    | Percent
    | Unknown(c: int)

  datatype Piece =
    | Plain(c: int)
    | Item(flag: Flag, alt: bool, width: Count, precision: Count, ls: nat, conv: Conv)

  const LIMIT32: int := 0x1_0000_0000

  // -------------------------------------------------------------------------
  // The text of a format, and its arguments
  // -------------------------------------------------------------------------

  function Decimals(n: nat): seq<int> { Chars(Digits(n, 10)) }

  function FlagText(flag: Flag): seq<int> {
    match flag
    case NoFlag => []
    case ZeroFlag => Bytes("0")
    case DashFlag => Bytes("-")
  }

  function AltText(alt: bool): seq<int> { if alt then Bytes("#") else [] }

  function CountText(c: Count): seq<int> {
    match c
    case Fixed(n) => Decimals(n)
    case Star(_) => Bytes("*")
    case _ => []
  }

  function PrecisionText(c: Count): seq<int> { if c.Absent? then [] else Bytes(".") + CountText(c) }

  function ConvChar(conv: Conv): int {
    match conv
    case Decimal(_) => 'd' as int
    case Unsigned(_) => 'u' as int
    case Octal(_) => 'o' as int
    case Hex(_) => 'x' as int
    case Pointer(_) => 'p' as int
    case Character(_) => 'c' as int
    case ErrorCode(_) => 'e' as int
    case Text(_) => 's' as int
    case Percent => '%' as int
    case Unknown(c) => c
  }

  function PieceText(p: Piece): seq<int> {
    match p
    case Plain(c) => [c]
    case Item(flag, alt, width, precision, ls, conv) =>
      ['%' as int] + (FlagText(flag) + (AltText(alt) + (CountText(width) + (PrecisionText(precision)
      + (Repeat('l' as int, ls) + [ConvChar(conv)])))))
  }

  function Render(ps: seq<Piece>): seq<int> {
    if ps == [] then [] else PieceText(ps[0]) + Render(ps[1..])
  }

  function CountArgs(c: Count): seq<Arg> { if c.Star? then [Num(c.v)] else [] }

  function ConvArgs(conv: Conv): seq<Arg> {
    match conv
    case Text(s) => [Str(s)]
    case Percent => []
    case Unknown(_) => []
    case _ => [Num(conv.v)]
  }

  function PieceArgs(p: Piece): seq<Arg> {
    match p
    case Plain(_) => []
    case Item(_, _, width, precision, _, conv) => CountArgs(width) + (CountArgs(precision) + ConvArgs(conv))
  }

  function Arguments(ps: seq<Piece>): seq<Arg> {
    if ps == [] then [] else PieceArgs(ps[0]) + Arguments(ps[1..])
  }

  // The characters that mean something after a '%'.
  predicate HasMeaning(c: int) {
    || '0' as int <= c <= '9' as int
    || c in ['c' as int, 'd' as int, 'e' as int, 'o' as int, 'p' as int, 's' as int, 'u' as int, 'x' as int,
             '%' as int, '-' as int, '*' as int, '.' as int, '#' as int, 'l' as int]
  }

  // The argument is one its type holds; l is long, of 32 bits, and ll has 64.
  predicate InRange(conv: Conv, ls: nat) {
    match conv
    case Decimal(v) => if ls < 2 then -0x8000_0000 <= v < 0x8000_0000 else -TWO64 / 2 <= v < TWO64 / 2
    case Unsigned(v) => 0 <= v < if ls < 2 then LIMIT32 else TWO64
    case Octal(v) => 0 <= v < if ls < 2 then LIMIT32 else TWO64
    case Hex(v) => 0 <= v < if ls < 2 then LIMIT32 else TWO64
    case Pointer(v) => 0 <= v < LIMIT32
    case ErrorCode(v) => -0x8000_0000 < v < 0x8000_0000
    case Text(Some(s)) => forall i :: 0 <= i < |s| ==> 1 <= s[i] < 256
    case Unknown(c) => !HasMeaning(c)
    case _ => true
  }

  // Digits in the text of a count do not start with 0, which would be the flag.
  predicate CountOk(c: Count) { c.Fixed? ==> 0 < c.n < 0x8000_0000 }

  predicate PieceOk(p: Piece) {
    match p
    case Plain(c) => c != '%' as int
    case Item(_, _, width, precision, ls, conv) =>
      CountOk(width) && !width.Bare? && CountOk(precision) && InRange(conv, ls)
  }

  // -------------------------------------------------------------------------
  // What it stands for
  // -------------------------------------------------------------------------

  function WidthOf(c: Count): int {
    match c
    case Fixed(n) => n
    case Star(v) => v
    case _ => 0
  }

  // Numbers are padded on the left whatever the flag: with blanks, zeros, or, for the flag '-', dashes.
  function PaddedNumber(n: nat, base: nat, flag: Flag, width: int): seq<int>
    requires 2 <= base <= 16
  {
    var ds := Chars(Digits(n, base));
    var pad := match flag { case NoFlag => ' ' as int case ZeroFlag => '0' as int case DashFlag => '-' as int };
    Repeat(pad, width - |ds|) + ds
  }

  // A precision that is given and not negative bounds the length.
  function Bounded(s: seq<int>, precision: Count): seq<int> {
    match precision
    case Fixed(n) => if n < |s| then s[..n] else s
    case Star(v) => if 0 <= v < |s| then s[..v] else s
    case _ => s
  }

  // Strings are padded on the side the flag asks for.
  function PaddedString(s: seq<int>, flag: Flag, width: int): seq<int> {
    var pad := Repeat(if flag.ZeroFlag? then '0' as int else ' ' as int, width - |s|);
    if flag.DashFlag? then s + pad else pad + s
  }

  // char is signed; '#' hides what is not printable.
  function Visible(s: seq<int>, alt: bool): (r: seq<int>)
    ensures |r| == |s|
  {
    seq(|s|, i requires 0 <= i < |s| =>
      if alt && !(32 <= s[i] <= 126) then '?' as int else if s[i] < 128 then s[i] else s[i] - 256)
  }

  const MESSAGES: seq<string> := ["unspecified error", "bad environment", "invalid parameter", "out of memory",
                                  "out of environments", "segmentation fault"]

  function Message(code: nat): seq<int> {
    if 1 <= code <= 6 then Bytes(MESSAGES[code - 1]) else Bytes("error ") + Decimals(code)
  }

  function PieceOutput(p: Piece): seq<int>
    requires PieceOk(p)
  {
    match p
    case Plain(c) => [c]
    case Item(flag, alt, width, precision, ls, conv) =>
      var w := WidthOf(width);
      match conv
      case Decimal(v) => if v < 0 then ['-' as int] + PaddedNumber(-v, 10, flag, w) else PaddedNumber(v, 10, flag, w)
      case Unsigned(v) => PaddedNumber(v, 10, flag, w)
      case Octal(v) => PaddedNumber(v, 8, flag, w)
      case Hex(v) => PaddedNumber(v, 16, flag, w)
      case Pointer(v) => ['0' as int, 'x' as int] + PaddedNumber(v, 16, flag, w)
      case Character(v) => [v]
      case ErrorCode(v) => Message(if v < 0 then -v else v)
      case Text(None) => PaddedString(Visible(Bounded(Bytes("(null)"), precision), alt), flag, w)
      case Text(Some(s)) => PaddedString(Visible(Bounded(s, precision), alt), flag, w)
      case Percent => ['%' as int]
      case Unknown(_) => PieceText(p)
  }

  predicate AllOk(ps: seq<Piece>) { forall p :: p in ps ==> PieceOk(p) }

  function Output(ps: seq<Piece>): seq<int>
    requires AllOk(ps)
  {
    if ps == [] then [] else PieceOutput(ps[0]) + Output(ps[1..])
  }

  // -------------------------------------------------------------------------
  // Reading an item
  // -------------------------------------------------------------------------

  // The text t stands at position i of the format.
  predicate Here(fmt: seq<int>, i: nat, t: seq<int>) { i + |t| <= |fmt| && fmt[i..i + |t|] == t }

  lemma HereParts(fmt: seq<int>, i: nat, a: seq<int>, b: seq<int>)
    requires Here(fmt, i, a + b)
    ensures Here(fmt, i, a) && Here(fmt, i + |a|, b)
  {
    assert fmt[i..i + |a + b|][..|a|] == a;
    assert fmt[i..i + |a + b|][|a|..] == b;
  }

  // What the characters before the conversion make of the flags.
  function PadOf(flag: Flag): int {
    match flag
    case NoFlag => SPACE
    case ZeroFlag => '0' as int
    case DashFlag => MINUS
  }

  function AfterCount(sp: Spec, c: Count): Spec {
    match c
    case Fixed(n) => Processed(sp, n)
    case Star(v) => Processed(sp, v)
    case _ => sp
  }

  function AfterDot(sp: Spec): Spec { if sp.width < 0 then sp.(width := 0) else sp }

  function AfterPrecision(sp: Spec, c: Count): Spec { if c.Absent? then sp else AfterCount(AfterDot(sp), c) }

  function FlaggedSpec(flag: Flag, alt: bool): Spec { Spec(PadOf(flag), -1, -1, 0, alt) }

  function SpecOf(p: Piece): Spec
    requires p.Item?
  {
    AfterPrecision(AfterCount(FlaggedSpec(p.flag, p.alt), p.width), p.precision).(lflag := p.ls)
  }

  lemma ParseOne(fmt: seq<int>, i: nat, sp: Spec, args: seq<Arg>)
    ensures ParseSpec(fmt, i, sp, args) ==
            match ParseStep(fmt, i, sp, args)
            case None => Parsed(ByteAt(fmt, i), i + 1, sp, args)
            case Some((j, sp', args')) => ParseSpec(fmt, j, sp', args')
  {}

  lemma ReadsFlag(fmt: seq<int>, i: nat, flag: Flag, args: seq<Arg>)
    requires Here(fmt, i, FlagText(flag))
    ensures ParseSpec(fmt, i, DEFAULT, args) ==
            ParseSpec(fmt, i + |FlagText(flag)|, FlaggedSpec(flag, false), args)
  {
    hide ReadWidth;
    assert flag.NoFlag? ==> FlaggedSpec(flag, false) == DEFAULT;
    ParseOne(fmt, i, DEFAULT, args);
    hide ParseSpec;
    if !flag.NoFlag? {
      assert fmt[i] == fmt[i..i + 1][0] == FlagText(flag)[0];
    }
  }

  lemma ReadsAlt(fmt: seq<int>, i: nat, flag: Flag, alt: bool, args: seq<Arg>)
    requires Here(fmt, i, AltText(alt))
    ensures ParseSpec(fmt, i, FlaggedSpec(flag, false), args) ==
            ParseSpec(fmt, i + |AltText(alt)|, FlaggedSpec(flag, alt), args)
  {
    hide ReadWidth;
    ParseOne(fmt, i, FlaggedSpec(flag, false), args);
    hide ParseSpec;
    if alt {
      assert fmt[i] == fmt[i..i + 1][0] == AltText(alt)[0];
    }
  }

  // A digit string that starts with no 0 and ends at a character that is no digit.
  predicate EndsAt(fmt: seq<int>, j: nat) { j < |fmt| && !IsDigit(fmt[j]) }

  lemma {:induction false} ReadsWidth(fmt: seq<int>, i: nat, ds: seq<nat>, k: nat)
    requires k < |ds| && forall n :: 0 <= n < |ds| ==> ds[n] < 10
    requires Here(fmt, i, Chars(ds)) && EndsAt(fmt, i + |ds|)
    ensures ReadWidth(fmt, i + k, Value(ds[..k], 10)) == (Value(ds, 10), i + |ds|)
    decreases |ds| - k
  {
    hide Value;
    var t := Chars(ds);
    assert fmt[i + k] == t[k] by { assert fmt[i..i + |t|][k] == t[k]; }
    assert ds[..k + 1] == ds[..k] + [ds[k]];
    ValueAppend(ds[..k], ds[k], 10);
    if k + 1 < |ds| {
      assert fmt[i + k + 1] == t[k + 1] by { assert fmt[i..i + |t|][k + 1] == t[k + 1]; }
      ReadsWidth(fmt, i, ds, k + 1);
    } else {
      assert ds[..k + 1] == ds;
    }
  }

  lemma NoDigits(base: nat)
    ensures Value([], base) == 0
  {}

  // The digits of n are read as n.
  lemma ReadsNumber(fmt: seq<int>, i: nat, n: nat)
    requires n > 0 && Here(fmt, i, Decimals(n)) && EndsAt(fmt, i + |Decimals(n)|)
    ensures i < |fmt| && '1' as int <= fmt[i] <= '9' as int
    ensures ReadWidth(fmt, i, 0) == (n, i + |Decimals(n)|)
  {
    hide Value, ReadWidth, Digits;
    var ds := Digits(n, 10);
    DigitsNormal(n, 10);
    DigitsValue(n, 10);
    ReadsWidth(fmt, i, ds, 0);
    NoDigits(10);
    assert ds[..0] == [];
    assert fmt[i] == fmt[i..i + |ds|][0] == DigitChar(ds[0]);
  }

  lemma StarArg(v: int, args: seq<Arg>)
    ensures IntArg([Num(v)] + args) == v && Rest([Num(v)] + args) == args
  {}

  lemma ReadsCount(fmt: seq<int>, i: nat, c: Count, sp: Spec, args: seq<Arg>)
    requires CountOk(c) && Here(fmt, i, CountText(c)) && EndsAt(fmt, i + |CountText(c)|)
    ensures ParseSpec(fmt, i, sp, CountArgs(c) + args) ==
            ParseSpec(fmt, i + |CountText(c)|, AfterCount(sp, c), args)
  {
    hide ReadWidth, Decimals;
    ParseOne(fmt, i, sp, CountArgs(c) + args);
    hide ParseSpec, Processed;
    match c
    case Fixed(n) =>
      ReadsNumber(fmt, i, n);
      assert CountArgs(c) + args == args;
    case Star(v) =>
      assert fmt[i] == fmt[i..i + 1][0] == '*' as int;
      StarArg(v, args);
    case _ =>
      assert CountArgs(c) + args == args;
  }

  lemma ReadsDot(fmt: seq<int>, i: nat, sp: Spec, args: seq<Arg>)
    requires i < |fmt| && fmt[i] == '.' as int
    ensures ParseSpec(fmt, i, sp, args) ==
            ParseSpec(fmt, i + 1, AfterDot(sp), args)
  {
    hide ReadWidth;
    ParseOne(fmt, i, sp, args);
    hide ParseSpec;
  }

  lemma ReadsPrecision(fmt: seq<int>, i: nat, c: Count, sp: Spec, args: seq<Arg>)
    requires CountOk(c) && Here(fmt, i, PrecisionText(c)) && EndsAt(fmt, i + |PrecisionText(c)|)
    ensures ParseSpec(fmt, i, sp, CountArgs(c) + args) ==
            ParseSpec(fmt, i + |PrecisionText(c)|, AfterPrecision(sp, c), args)
  {
    hide ParseSpec, CountText, AfterCount, AfterDot, CountOk, Here, EndsAt;
    if c.Absent? {
      assert CountArgs(c) + args == args;
    } else {
      hide CountArgs;
      DotStands(fmt, i, CountText(c));
      ReadsDot(fmt, i, sp, CountArgs(c) + args);
      ReadsCount(fmt, i + 1, c, AfterDot(sp), args);
    }
  }

  lemma DotStands(fmt: seq<int>, i: nat, t: seq<int>)
    requires Here(fmt, i, Bytes(".") + t)
    ensures i < |fmt| && fmt[i] == '.' as int && Here(fmt, i + 1, t)
  {
    HereParts(fmt, i, Bytes("."), t);
    assert fmt[i] == fmt[i..i + 1][0] == '.' as int;
  }

  lemma ReadsL(fmt: seq<int>, i: nat, sp: Spec, args: seq<Arg>)
    requires i < |fmt| && fmt[i] == 'l' as int
    ensures ParseSpec(fmt, i, sp, args) == ParseSpec(fmt, i + 1, sp.(lflag := sp.lflag + 1), args)
  {
    hide ReadWidth;
    ParseOne(fmt, i, sp, args);
    hide ParseSpec;
  }

  lemma LsApart(fmt: seq<int>, i: nat, n: nat)
    requires n > 0 && Here(fmt, i, Repeat('l' as int, n))
    ensures fmt[i] == 'l' as int && Here(fmt, i + 1, Repeat('l' as int, n - 1))
  {
    var ls := Repeat('l' as int, n);
    assert fmt[i] == fmt[i..i + n][0] == ls[0];
    assert fmt[i + 1..i + n] == fmt[i..i + n][1..] == ls[1..] == Repeat('l' as int, n - 1);
  }

  lemma {:induction false} ReadsLs(fmt: seq<int>, i: nat, n: nat, sp: Spec, args: seq<Arg>)
    requires Here(fmt, i, Repeat('l' as int, n))
    ensures ParseSpec(fmt, i, sp, args) == ParseSpec(fmt, i + n, sp.(lflag := sp.lflag + n), args)
    decreases n
  {
    hide ParseSpec, Repeat;
    if n > 0 {
      LsApart(fmt, i, n);
      ReadsL(fmt, i, sp, args);
      ReadsLs(fmt, i + 1, n - 1, sp.(lflag := sp.lflag + 1), args);
    }
  }

  function Ending(p: Piece): seq<int>
    requires p.Item?
  {
    Repeat('l' as int, p.ls) + [ConvChar(p.conv)]
  }

  lemma ItemText(p: Piece)
    requires p.Item?
    ensures PieceText(p) ==
            [PERCENT] + (FlagText(p.flag) + (AltText(p.alt)
                         + (CountText(p.width) + (PrecisionText(p.precision) + Ending(p)))))
    ensures |Ending(p)| == p.ls + 1
  {}

  lemma EndingStarts(fmt: seq<int>, j: nat, p: Piece)
    requires p.Item? && PieceOk(p) && Here(fmt, j, Ending(p))
    ensures EndsAt(fmt, j) && !IsDigit(ConvChar(p.conv))
  {
    NotASign(p.conv, p.ls);
    var t := Ending(p);
    assert fmt[j] == fmt[j..j + |t|][0] == t[0];
    assert t[0] == if p.ls > 0 then 'l' as int else ConvChar(p.conv);
  }

  // No conversion character is read as a flag, a width or a precision.
  lemma NotASign(conv: Conv, ls: nat)
    requires InRange(conv, ls)
    ensures var c := ConvChar(conv);
      c != MINUS && !IsDigit(c) && c != '*' as int && c != '.' as int && c != '#' as int && c != 'l' as int
    ensures Known(ConvChar(conv)) <==> !conv.Unknown?
  {}

  lemma PrecisionStarts(fmt: seq<int>, j: nat, p: Piece)
    requires p.Item? && PieceOk(p) && Here(fmt, j, PrecisionText(p.precision) + Ending(p))
    ensures EndsAt(fmt, j)
  {
    hide Ending, CountText;
    HereParts(fmt, j, PrecisionText(p.precision), Ending(p));
    if p.precision.Absent? {
      EndingStarts(fmt, j, p);
    } else {
      DotStands(fmt, j, CountText(p.precision));
    }
  }

  lemma ReadsEnding(fmt: seq<int>, j: nat, p: Piece, sp: Spec, args: seq<Arg>)
    requires p.Item? && PieceOk(p) && Here(fmt, j, Ending(p)) && sp.lflag == 0
    ensures ParseSpec(fmt, j, sp, args) == Parsed(ConvChar(p.conv), j + |Ending(p)|, sp.(lflag := p.ls), args)
  {
    hide ReadWidth;
    NotASign(p.conv, p.ls);
    HereParts(fmt, j, Repeat('l' as int, p.ls), [ConvChar(p.conv)]);
    ReadsLs(fmt, j, p.ls, sp, args);
    var k := j + p.ls;
    assert fmt[k] == fmt[k..k + 1][0] == ConvChar(p.conv);
    ParseOne(fmt, k, sp.(lflag := p.ls), args);
    hide ParseSpec;
  }

  lemma ReadsItem(fmt: seq<int>, i: nat, p: Piece, more: seq<Arg>)
    requires p.Item? && PieceOk(p) && Here(fmt, i, PieceText(p))
    ensures |PieceText(p)| > 1 && fmt[i] == PERCENT
    ensures ParseSpec(fmt, i + 1, DEFAULT, PieceArgs(p) + more) ==
            Parsed(ConvChar(p.conv), i + |PieceText(p)|, SpecOf(p), ConvArgs(p.conv) + more)
  {
    hide ParseSpec, PrecisionText, CountText, FlagText, AltText, CountArgs, ConvArgs, SpecOf, Ending, InRange, CountOk,
         PieceArgs, FlaggedSpec;
    hide PieceText;
    ItemText(p);
    var ending := Ending(p);
    var precision := PrecisionText(p.precision) + ending;
    var width := CountText(p.width) + precision;
    var alt := AltText(p.alt) + width;
    var flag := FlagText(p.flag) + alt;
    HereParts(fmt, i, [PERCENT], flag);
    assert fmt[i] == fmt[i..i + 1][0] == PERCENT;
    var a := ConvArgs(p.conv) + more;
    ArgsApart(p, more);
    ReadsSigns(fmt, i + 1, p, CountArgs(p.width) + (CountArgs(p.precision) + a));
    var j := i + 1 + |FlagText(p.flag)| + |AltText(p.alt)|;
    ReadsCounts(fmt, j, p, a);
  }

  lemma ArgsApart(p: Piece, more: seq<Arg>)
    requires p.Item?
    ensures PieceArgs(p) + more == CountArgs(p.width) + (CountArgs(p.precision) + (ConvArgs(p.conv) + more))
  {
    hide CountArgs, ConvArgs;
  }

  lemma ReadsSigns(fmt: seq<int>, i: nat, p: Piece, args: seq<Arg>)
    requires p.Item?
    requires Here(fmt, i, FlagText(p.flag) + (AltText(p.alt)
                          + (CountText(p.width) + (PrecisionText(p.precision) + Ending(p)))))
    ensures var j := i + |FlagText(p.flag)| + |AltText(p.alt)|;
      && Here(fmt, j, CountText(p.width) + (PrecisionText(p.precision) + Ending(p)))
      && ParseSpec(fmt, i, DEFAULT, args) == ParseSpec(fmt, j, FlaggedSpec(p.flag, p.alt), args)
  {
    hide ParseSpec, PrecisionText, CountText, FlagText, AltText, Ending, Here;
    var rest := CountText(p.width) + (PrecisionText(p.precision) + Ending(p));
    HereParts(fmt, i, FlagText(p.flag), AltText(p.alt) + rest);
    ReadsFlag(fmt, i, p.flag, args);
    var k := i + |FlagText(p.flag)|;
    HereParts(fmt, k, AltText(p.alt), rest);
    ReadsAlt(fmt, k, p.flag, p.alt, args);
  }

  lemma ReadsCounts(fmt: seq<int>, i: nat, p: Piece, args: seq<Arg>)
    requires p.Item? && PieceOk(p)
    requires Here(fmt, i, CountText(p.width) + (PrecisionText(p.precision) + Ending(p)))
    ensures ParseSpec(fmt, i, FlaggedSpec(p.flag, p.alt), CountArgs(p.width) + (CountArgs(p.precision) + args)) ==
            Parsed(ConvChar(p.conv), i + |CountText(p.width)| + |PrecisionText(p.precision)| + |Ending(p)|,
                   SpecOf(p), args)
  {
    hide ParseSpec, PrecisionText, CountText, Ending, Here, CountArgs, InRange, CountOk;
    var sp := FlaggedSpec(p.flag, p.alt);
    var rest := PrecisionText(p.precision) + Ending(p);
    HereParts(fmt, i, CountText(p.width), rest);
    var j := i + |CountText(p.width)|;
    PrecisionStarts(fmt, j, p);
    ReadsCount(fmt, i, p.width, sp, CountArgs(p.precision) + args);
    HereParts(fmt, j, PrecisionText(p.precision), Ending(p));
    var k := j + |PrecisionText(p.precision)|;
    EndingStarts(fmt, k, p);
    ReadsPrecision(fmt, j, p.precision, AfterCount(sp, p.width), args);
    ReadsEnding(fmt, k, p, AfterPrecision(AfterCount(sp, p.width), p.precision), args);
  }

  // -------------------------------------------------------------------------
  // Sending an item
  // -------------------------------------------------------------------------

  // The flags as vprintfmt has them when it comes to the conversion.
  lemma SpecFacts(p: Piece)
    requires p.Item? && PieceOk(p)
    ensures var sp, w := SpecOf(p), WidthOf(p.width);
      && sp.padc == PadOf(p.flag) && sp.altflag == p.alt && sp.lflag == p.ls
      && (sp.width == w || (sp.width <= 0 && w <= 0))
      && (p.precision.Fixed? ==> sp.precision == p.precision.n) && (p.precision.Star? ==> sp.precision == p.precision.v)
      && (p.precision.Absent? || p.precision.Bare? ==> sp.precision == -1)
  {}

  lemma SameRepeat(c: int, n: int, m: int)
    requires n == m || (n <= 0 && m <= 0)
    ensures Repeat(c, n) == Repeat(c, m)
  {}

  lemma NumberField(p: Piece, n: nat, base: nat)
    requires p.Item? && PieceOk(p) && 2 <= base <= 16
    ensures Field(n, base, SpecOf(p).width, SpecOf(p).padc) == PaddedNumber(n, base, p.flag, WidthOf(p.width))
  {
    hide Digits, Chars, SpecOf, Repeat;
    SpecFacts(p);
    var ds := Digits(n, base);
    SameRepeat(PadOf(p.flag), SpecOf(p).width - |ds|, WidthOf(p.width) - |ds|);
  }

  lemma TextField(p: Piece, s: seq<int>)
    requires p.Item? && PieceOk(p) && AllBytes(s)
    ensures StringField(s, SpecOf(p)) ==
            PaddedString(Visible(Bounded(s, p.precision), p.alt), p.flag, WidthOf(p.width))
  {
    hide SpecOf, Repeat, Shown, Visible, InRange, CountOk, Bounded, Cut;
    SpecFacts(p);
    BoundedIsCut(p, s);
    var sp := SpecOf(p);
    var n := Cut(s, sp.precision);
    SameShown(s[..n], p.alt);
    SameRepeat(PadOf(p.flag), sp.width - n, WidthOf(p.width) - n);
    SameRepeat(SPACE, sp.width - n, WidthOf(p.width) - n);
  }

  lemma BoundedIsCut(p: Piece, s: seq<int>)
    requires p.Item? && PieceOk(p)
    ensures var n := Cut(s, SpecOf(p).precision); n <= |s| && Bounded(s, p.precision) == s[..n]
  {
    hide SpecOf, InRange;
    SpecFacts(p);
  }

  predicate AllBytes(s: seq<int>) { forall i :: 0 <= i < |s| ==> 0 <= s[i] < 256 }

  lemma SameShown(s: seq<int>, alt: bool)
    requires AllBytes(s)
    ensures Shown(s, alt) == Visible(s, alt)
  {}

  lemma MessageIs(code: nat)
    ensures ErrorText(code) == Message(code)
  {
    hide Bytes, Chars, Repeat, Shown, Digits, StringField, Field, Decimals;
    if ErrorString(code).Some? {
      Ascii(code);
      Undecorated(ErrorString(code).value);
    } else {
      PlainDecimal(code);
    }
  }

  lemma PlainDecimal(n: nat)
    ensures Field(n, 10, -1, SPACE) == Decimals(n)
  {
    hide Digits, Chars;
    NoPad(SPACE, -1 - |Digits(n, 10)|);
  }

  lemma NoPad(c: int, n: int)
    requires n <= 0
    ensures Repeat(c, n) == []
  {}

  lemma Ascii(code: nat)
    requires ErrorString(code).Some?
    ensures forall c :: c in ErrorString(code).value ==> c < 128 as char
  {}

  lemma Undecorated(s: string)
    requires forall c :: c in s ==> c < 128 as char
    ensures StringField(Bytes(s), DEFAULT) == Bytes(s)
  {
    var b := Bytes(s);
    forall i | 0 <= i < |b| ensures b[i] < 128 {
      assert s[i] in s;
    }
    NoPad(SPACE, -1 - |b|);
    hide Repeat;
  }

  lemma Converts(p: Piece, more: seq<Arg>)
    requires p.Item? && PieceOk(p) && !p.conv.Unknown?
    ensures Known(ConvChar(p.conv))
    ensures Convert(ConvChar(p.conv), SpecOf(p), ConvArgs(p.conv) + more) == PieceOutput(p)
  {
    hide SpecOf, Field, PaddedNumber, StringField, PaddedString, Visible, Bounded, ErrorText, Message, PieceText,
         CountOk;
    SpecFacts(p);
    NotASign(p.conv, p.ls);
    match p.conv
    case Decimal(v) =>
      SignedRange(v, p.ls);
      NumberField(p, Abs(v), 10);
    case Unsigned(v) =>
      UnsignedRange(v, p.ls);
      NumberField(p, v, 10);
    case Octal(v) =>
      UnsignedRange(v, p.ls);
      NumberField(p, v, 8);
    case Hex(v) =>
      UnsignedRange(v, p.ls);
      NumberField(p, v, 16);
    case Pointer(v) =>
      NumberField(p, v, 16);
    case Character(v) =>
    case ErrorCode(v) =>
      MessageIs(Abs(v));
    case Text(s) =>
      TextField(p, if s.Some? then s.value else Bytes("(null)"));
    case Percent =>
  }

  lemma SignedRange(v: int, ls: nat)
    requires InRange(Decimal(v), ls)
    ensures GetInt(v, ls) == v
  {}

  lemma UnsignedRange(v: int, ls: nat)
    requires InRange(Unsigned(v), ls)
    ensures GetUint(v, ls) == v
  {}

  // -------------------------------------------------------------------------
  // The whole format
  // -------------------------------------------------------------------------

  predicate Clean(t: seq<int>) { PERCENT !in t }

  lemma CleanBoth(a: seq<int>, b: seq<int>)
    requires Clean(a) && Clean(b)
    ensures Clean(a + b)
  {}

  lemma CleanCount(c: Count)
    ensures Clean(CountText(c)) && Clean(PrecisionText(c))
  {
    if c.Fixed? {
      var t := Decimals(c.n);
      forall k | 0 <= k < |t| ensures t[k] != PERCENT {
        assert t[k] == DigitChar(Digits(c.n, 10)[k]);
      }
    }
    hide Decimals;
    CleanBoth(Bytes("."), CountText(c));
  }

  // After its '%', an item that is no %% holds no other.
  lemma CleanItem(p: Piece)
    requires p.Item? && !p.conv.Percent? && PieceOk(p)
    ensures PieceText(p)[0] == PERCENT && Clean(PieceText(p)[1..])
  {
    hide CountText, PrecisionText, InRange, CountOk;
    CleanCount(p.width);
    CleanCount(p.precision);
    assert ConvChar(p.conv) != PERCENT by { NotPercent(p.conv, p.ls); }
    CleanBoth(Repeat('l' as int, p.ls), [ConvChar(p.conv)]);
    var ending := Ending(p);
    hide Clean;
    CleanBoth(PrecisionText(p.precision), ending);
    CleanBoth(CountText(p.width), PrecisionText(p.precision) + ending);
    CleanSigns(p.flag, p.alt);
    CleanBoth(AltText(p.alt), CountText(p.width) + (PrecisionText(p.precision) + ending));
    var rest := AltText(p.alt) + (CountText(p.width) + (PrecisionText(p.precision) + ending));
    CleanBoth(FlagText(p.flag), rest);
    assert PieceText(p)[1..] == FlagText(p.flag) + rest;
  }

  lemma CleanSigns(flag: Flag, alt: bool)
    ensures Clean(FlagText(flag)) && Clean(AltText(alt))
  {}

  lemma NotPercent(conv: Conv, ls: nat)
    requires InRange(conv, ls) && !conv.Percent?
    ensures ConvChar(conv) != PERCENT
  {}

  // One piece of the format, wherever it stands.
  lemma StreamOfPiece(fmt: seq<int>, i: nat, p: Piece, more: seq<Arg>)
    requires PieceOk(p) && Here(fmt, i, PieceText(p))
    ensures Stream(fmt, i, PieceArgs(p) + more) == PieceOutput(p) + Stream(fmt, i + |PieceText(p)|, more)
  {
    if p.Plain? {
      StreamOfChar(fmt, i, p, more);
    } else if p.conv.Unknown? {
      StreamOfUnknown(fmt, i, p, more);
    } else {
      StreamOfItem(fmt, i, p, more);
    }
  }

  lemma StreamOfChar(fmt: seq<int>, i: nat, p: Piece, more: seq<Arg>)
    requires p.Plain? && PieceOk(p) && Here(fmt, i, PieceText(p))
    ensures Stream(fmt, i, PieceArgs(p) + more) == PieceOutput(p) + Stream(fmt, i + |PieceText(p)|, more)
  {
    hide Stream;
    assert fmt[i] == fmt[i..i + 1][0] == p.c;
    assert PieceArgs(p) + more == more;
    StreamStep(fmt, i, more);
  }

  lemma StreamOfItem(fmt: seq<int>, i: nat, p: Piece, more: seq<Arg>)
    requires p.Item? && !p.conv.Unknown? && PieceOk(p) && Here(fmt, i, PieceText(p))
    ensures Stream(fmt, i, PieceArgs(p) + more) == PieceOutput(p) + Stream(fmt, i + |PieceText(p)|, more)
  {
    hide Stream, PieceText, PieceArgs, PieceOutput, Convert, ParseSpec, SpecOf, PieceOk;
    ReadsItem(fmt, i, p, more);
    StreamStep(fmt, i, PieceArgs(p) + more);
    Converts(p, more);
    ConvArgsLeft(p, more);
  }

  lemma ConvArgsLeft(p: Piece, more: seq<Arg>)
    requires p.Item? && PieceOk(p) && !p.conv.Unknown?
    ensures more == if ConvChar(p.conv) == PERCENT then ConvArgs(p.conv) + more else Rest(ConvArgs(p.conv) + more)
  {}

  // It is sent as it stands, and only the arguments of its stars are used up.
  lemma StreamOfUnknown(fmt: seq<int>, i: nat, p: Piece, more: seq<Arg>)
    requires p.Item? && p.conv.Unknown? && PieceOk(p) && Here(fmt, i, PieceText(p))
    ensures Stream(fmt, i, PieceArgs(p) + more) == PieceOutput(p) + Stream(fmt, i + |PieceText(p)|, more)
  {
    hide Stream, PieceText, PieceArgs, PieceOutput, Convert, ParseSpec, SpecOf, PieceOk, Known, ConvChar, Clean;
    ReadsItem(fmt, i, p, more);
    UnknownIs(p, more);
    StreamStep(fmt, i, PieceArgs(p) + more);
    SentAsItStands(fmt, i, PieceText(p), more);
  }

  lemma SentAsItStands(fmt: seq<int>, i: nat, t: seq<int>, more: seq<Arg>)
    requires Here(fmt, i, t) && t != [] && t[0] == PERCENT && Clean(t[1..])
    ensures [PERCENT] + Stream(fmt, i + 1, more) == t + Stream(fmt, i + |t|, more)
  {
    hide Stream, Clean;
    var n := i + |t|;
    assert fmt[i + 1..n] == fmt[i..n][1..] == t[1..];
    CleanRange(fmt, i + 1, n);
    StreamOfPlain(fmt, n, i + 1, more);
    assert [PERCENT] + (t[1..] + Stream(fmt, n, more)) == t + Stream(fmt, n, more);
  }

  lemma UnknownIs(p: Piece, more: seq<Arg>)
    requires p.Item? && p.conv.Unknown? && PieceOk(p)
    ensures PieceOutput(p) == PieceText(p) && ConvArgs(p.conv) + more == more && !Known(ConvChar(p.conv))
    ensures PieceText(p)[0] == PERCENT && Clean(PieceText(p)[1..])
  {
    NotASign(p.conv, p.ls);
    CleanItem(p);
    hide PieceText, InRange, CountOk, Clean;
  }

  lemma CleanRange(fmt: seq<int>, i: nat, n: nat)
    requires i <= n <= |fmt| && Clean(fmt[i..n])
    ensures forall k :: i <= k < n ==> fmt[k] != PERCENT
  {
    forall k | i <= k < n ensures fmt[k] != PERCENT {
      assert fmt[k] == fmt[i..n][k - i];
    }
  }

  lemma HereAfter(pre: seq<int>, t: seq<int>, rest: seq<int>)
    ensures Here(pre + (t + rest), |pre|, t) && pre + (t + rest) == (pre + t) + rest
  {}

  lemma {:induction false} StreamFrom(pre: seq<int>, ps: seq<Piece>)
    requires AllOk(ps)
    ensures Stream(pre + Render(ps), |pre|, Arguments(ps)) == Output(ps)
    decreases |ps|
  {
    hide *;
    if ps == [] {
      NoPieces(pre);
    } else {
      var p, qs := ps[0], ps[1..];
      FirstPiece(ps);
      HereAfter(pre, PieceText(p), Render(qs));
      StreamOfPiece(pre + Render(ps), |pre|, p, Arguments(qs));
      StreamFrom(pre + PieceText(p), qs);
    }
  }

  lemma NoPieces(pre: seq<int>)
    ensures AllOk([]) && Stream(pre + Render([]), |pre|, Arguments([])) == Output([])
  {}

  lemma FirstPiece(ps: seq<Piece>)
    requires AllOk(ps) && ps != []
    ensures PieceOk(ps[0]) && AllOk(ps[1..])
    ensures Render(ps) == PieceText(ps[0]) + Render(ps[1..])
    ensures Arguments(ps) == PieceArgs(ps[0]) + Arguments(ps[1..])
    ensures Output(ps) == PieceOutput(ps[0]) + Output(ps[1..])
  {
    hide PieceOk, PieceText, PieceArgs, PieceOutput;
    assert ps[0] in ps && forall q :: q in ps[1..] ==> q in ps;
  }

  // What vprintfmt sends for the text of a format and its arguments is what the pieces stand for.
  lemma StreamIsOutput(ps: seq<Piece>)
    requires AllOk(ps)
    ensures Stream(Render(ps), 0, Arguments(ps)) == Output(ps)
  {
    hide Stream, PieceOk;
    StreamFrom([], ps);
    assert [] + Render(ps) == Render(ps);
  }

  lemma EveryReading(fmt: seq<int>, args: seq<Arg>)
    ensures forall ps | AllOk(ps) && fmt == Render(ps) && args == Arguments(ps) :: Stream(fmt, 0, args) == Output(ps)
  {
    hide *;
    forall ps | AllOk(ps) && fmt == Render(ps) && args == Arguments(ps) ensures Stream(fmt, 0, args) == Output(ps) {
      StreamIsOutput(ps);
    }
  }

  // %08x, as the kernel prints environment ids: eight hexadecimal digits that denote the argument.
  lemma EightHexDigits(v: nat) returns (ds: seq<nat>)
    requires v < LIMIT32
    ensures |ds| == 8 && (forall i :: 0 <= i < 8 ==> ds[i] < 16) && Value(ds, 16) == v
    ensures Stream(Bytes("%08x"), 0, [Num(v)]) == Chars(ds)
  {
    hide Stream, Value, Digits, Chars, Repeat;
    var hex := Digits(v, 16);
    AtMostEight(v);
    ds := ZeroPadded(hex, 8 - |hex|);
    DigitsValue(v, 16);
    ZeroPaddedValue(hex, 16, 8 - |hex|);
    ZeroPaddedChars(hex, 8 - |hex|);
    StreamOf08x(v);
  }

  lemma StreamOf08x(v: nat)
    requires v < LIMIT32
    ensures Stream(Bytes("%08x"), 0, [Num(v)]) == PaddedNumber(v, 16, ZeroFlag, 8)
  {
    hide Stream, PaddedNumber;
    var p := Item(ZeroFlag, false, Fixed(8), Absent, 0, Hex(v));
    var ps := [p];
    assert ps[1..] == [];
    assert Render(ps) == Bytes("%08x");
    assert Arguments(ps) == [Num(v)];
    assert Output(ps) == PaddedNumber(v, 16, ZeroFlag, 8);
    StreamIsOutput(ps);
  }

  lemma AtMostEight(v: nat)
    requires v < LIMIT32
    ensures |Digits(v, 16)| <= 8
  {
    DigitsCount(v, 16, 8);
    assert Power(16, 4) == 0x1_0000;
  }
}
