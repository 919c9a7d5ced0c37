/** The loops of vprintfmt, and vsnprintf and vcprintf on top of it: one stream, whatever the receiver. */
module Printf {
  import opened Wrappers
  import opened Numbers
  import opened Sinks
  import opened Format
  import FormatText

  const E_INVAL: int := 3

  // Sends the characters of s one by one.
  method SendAll(d: Putdat, s: seq<int>)
    requires d.Valid()
    modifies d.Footprint()
    ensures d.Valid() && d.Sent() == old(d.Sent()) + s
  {
    ghost var was := d.Sent();
    var i := 0;
    assert s[..0] == [];
    while i < |s|
      invariant 0 <= i <= |s| && d.Valid() && d.Sent() == was + s[..i]
    {
      d.Putch(s[i]);
      assert s[..i + 1] == s[..i] + [s[i]];
      Associates(was, s[..i], s[i]);
      i := i + 1;
    }
    assert s[..i] == s;
  }

  // for (; n > 0; n--) putch(c)
  method Pad(d: Putdat, c: int, n: int)
    requires d.Valid()
    modifies d.Footprint()
    ensures d.Valid() && d.Sent() == old(d.Sent()) + Repeat(c, n)
  {
    hide Repeat;
    ghost var was := d.Sent();
    var k := n;
    RepeatNone(c, n);
    RepeatNone(c, 0);
    while k > 0
      invariant (n <= 0 ==> k == n) && (n > 0 ==> 0 <= k <= n)
      invariant d.Valid() && d.Sent() == was + Repeat(c, n - k)
    {
      d.Putch(c);
      RepeatMore(c, n - k);
      Associates(was, Repeat(c, n - k), c);
      k := k - 1;
    }
  }

  method PrintNum(d: Putdat, num: nat, base: nat, width: int, padc: int)
    requires d.Valid() && 2 <= base <= 16
    modifies d.Footprint()
    ensures d.Valid() && d.Sent() == old(d.Sent()) + Field(num, base, width, padc)
    decreases num
  {
    hide Repeat, Field;
    EmitsField(num, base, width, padc);
    if num >= base {
      EmitsField(num / base, base, width - 1, padc);
      QuotientSmaller(num, base);
      PrintNum(d, num / base, base, width - 1, padc);
    } else {
      Pad(d, padc, width - 1);
    }
    d.Putch(DigitChar(num % base));
  }

  method PrintSigned(d: Putdat, num: int, sp: Spec)
    requires d.Valid()
    modifies d.Footprint()
    ensures d.Valid() && d.Sent() == old(d.Sent()) + Signed(num, 10, sp)
  {
    hide Field;
    var n := num;
    if num < 0 {
      d.Putch(MINUS);
      n := -num;
    }
    PrintNum(d, n, 10, sp.width, sp.padc);
  }

  // The middle loop of %s: the characters, each one narrowing the width.
  method PrintChars(d: Putdat, s: seq<int>, precision0: int, width0: int, alt: bool) returns (width: int)
    requires d.Valid()
    modifies d.Footprint()
    ensures d.Valid() && d.Sent() == old(d.Sent()) + Shown(s[..Cut(s, precision0)], alt)
    ensures width == width0 - Cut(s, precision0)
  {
    hide Shown, CharOf;
    ghost var was := d.Sent();
    var n := Cut(s, precision0);
    var precision, i := precision0, 0;
    width := width0;
    assert Shown(s[..0], alt) == [];
    while i < |s| && (precision < 0 || precision - 1 >= 0)
      invariant 0 <= i <= n && d.Valid() && width == width0 - i
      invariant if precision0 < 0 then precision == precision0 else precision == precision0 - i && precision >= 0
      invariant d.Sent() == was + Shown(s[..i], alt)
      decreases |s| - i
    {
      ShownStep(s, i, alt);
      Associates(was, Shown(s[..i], alt), CharOf(s[i], alt));
      precision := if precision < 0 then precision else precision - 1;
      d.Putch(CharOf(s[i], alt));
      width := width - 1;
      i := i + 1;
    }
    assert i == n;
  }

  // The three loops of %s.
  method PrintString(d: Putdat, s: seq<int>, sp: Spec)
    requires d.Valid()
    modifies d.Footprint()
    ensures d.Valid() && d.Sent() == old(d.Sent()) + StringField(s, sp)
  {
    hide Repeat, Shown, CharOf;
    ghost var was := d.Sent();
    var n := Cut(s, sp.precision);
    var width := sp.width;
    RepeatNone(sp.padc, sp.width - n);
    RepeatNone(SPACE, sp.width - n);
    if width > 0 && sp.padc != MINUS {
      width := width - n;
      Pad(d, sp.padc, width);
      width := if width > 0 then 0 else width;
    }
    ghost var left := if sp.padc != MINUS then Repeat(sp.padc, sp.width - n) else [];
    assert d.Sent() == was + left;
    TrailingPad(n, width, sp);
    width := PrintChars(d, s, sp.precision, width, sp.altflag);
    Pad(d, SPACE, width);
    ghost var mid, right := Shown(s[..n], sp.altflag), Repeat(SPACE, width);
    assert StringField(s, sp) == left + mid + right;
    ThreeParts(was, left, mid, right);
  }

  lemma ThreeParts(a: seq<int>, b: seq<int>, c: seq<int>, e: seq<int>)
    ensures a + b + c + e == a + (b + c + e)
  {}

  lemma RepeatMore(c: int, n: int)
    requires n >= 0
    ensures Repeat(c, n + 1) == Repeat(c, n) + [c]
  {}

  lemma RepeatNone(c: int, n: int)
    ensures n <= 0 ==> Repeat(c, n) == []
  {}

  lemma Associates(a: seq<int>, b: seq<int>, c: int)
    ensures a + b + [c] == a + (b + [c])
  {}

  lemma ShownStep(s: seq<int>, i: nat, alt: bool)
    requires i < |s|
    ensures Shown(s[..i + 1], alt) == Shown(s[..i], alt) + [CharOf(s[i], alt)]
  {}

  lemma TrailingPad(n: nat, w0: int, sp: Spec)
    requires w0 == if sp.width > 0 && sp.padc != MINUS then (if sp.width - n > 0 then 0 else sp.width - n)
        else sp.width
    ensures Repeat(SPACE, w0 - n) == if sp.padc == MINUS then Repeat(SPACE, sp.width - n) else []
  {}

  method PrintError(d: Putdat, err: nat)
    requires d.Valid()
    modifies d.Footprint()
    ensures d.Valid() && d.Sent() == old(d.Sent()) + ErrorText(err)
  {
    hide Signed, StringField, Bytes, ErrorString;
    var s := if err >= MAXERROR then None else ErrorString(err);
    ghost var was := d.Sent();
    if s.None? {
      SendAll(d, Bytes("error "));
      PrintSigned(d, err, DEFAULT);
      assert d.Sent() == was + (Bytes("error ") + Signed(err, 10, DEFAULT));
    } else {
      PrintString(d, Bytes(s.value), DEFAULT);
    }
  }

  // The switch on a conversion character.
  method PrintConversion(d: Putdat, ch: int, sp: Spec, args: seq<Arg>)
    requires d.Valid() && Known(ch)
    modifies d.Footprint()
    ensures d.Valid() && d.Sent() == old(d.Sent()) + Convert(ch, sp, args)
  {
    hide Field, Signed, StringField, ErrorText, Bytes, GetInt, GetUint, Abs, IntArg, StrArg;
    var v := IntArg(args);
    if ch == 'c' as int {
      d.Putch(v);
    } else if ch == 'e' as int {
      PrintError(d, Abs(v));
    } else if ch == 's' as int {
      PrintString(d, match StrArg(args) { case Some(s) => s case None => Bytes("(null)") }, sp);
    } else if ch == 'd' as int {
      PrintSigned(d, GetInt(v, sp.lflag), sp);
    } else if ch == 'u' as int {
      PrintNum(d, GetUint(v, sp.lflag), 10, sp.width, sp.padc);
    } else if ch == 'o' as int {
      PrintNum(d, GetUint(v, sp.lflag), 8, sp.width, sp.padc);
    } else if ch == 'p' as int {
      SendAll(d, Bytes("0x"));
      PrintNum(d, v % 0x1_0000_0000, 16, sp.width, sp.padc);
    } else if ch == 'x' as int {
      PrintNum(d, GetUint(v, sp.lflag), 16, sp.width, sp.padc);
    } else {
      d.Putch(PERCENT);
    }
  }

  // From `reswitch:` to the conversion character.
  method ReadSpec(fmt: seq<int>, i: nat, args: seq<Arg>) returns (p: Parsed)
    ensures p == ParseSpec(fmt, i, DEFAULT, args)
  {
    var j, sp, a := i, DEFAULT, args;
    while true
      invariant ParseSpec(fmt, j, sp, a) == ParseSpec(fmt, i, DEFAULT, args)
      decreases |fmt| - j
    {
      var step := ParseStep(fmt, j, sp, a);
      if step.None? {
        return Parsed(ByteAt(fmt, j), j + 1, sp, a);
      }
      j, sp, a := step.value.0, step.value.1, step.value.2;
    }
  }

  // One round: a plain character, or a whole conversion.  The new position, the arguments left, and
  // what has been sent.
  method PrintNext(d: Putdat, fmt: seq<int>, i: nat, args: seq<Arg>)
    returns (i': nat, args': seq<Arg>, ghost out: seq<int>)
    requires d.Valid() && i < |fmt|
    modifies d.Footprint()
    ensures d.Valid() && d.Sent() == old(d.Sent()) + out && i' > i
    ensures Stream(fmt, i, args) == out + Stream(fmt, i', args')
  {
    hide Convert, ParseSpec, Stream, Known;
    StreamStep(fmt, i, args);
    if fmt[i] != PERCENT {
      d.Putch(fmt[i]);
      return i + 1, args, [fmt[i]];
    }
    var p := ReadSpec(fmt, i + 1, args);
    if Known(p.ch) {
      PrintConversion(d, p.ch, p.sp, p.args);
      return p.next, if p.ch == PERCENT then p.args else Rest(p.args), Convert(p.ch, p.sp, p.args);
    }
    d.Putch(PERCENT);
    return i + 1, p.args, [PERCENT];
  }

  // Sends exactly the stream of the format, in order, to whatever receiver it is given.
  method VPrintFmt(d: Putdat, fmt: seq<int>, args: seq<Arg>)
    requires d.Valid()
    modifies d.Footprint()
    ensures d.Valid() && d.Sent() == old(d.Sent()) + Stream(fmt, 0, args)
    ensures forall ps | FormatText.AllOk(ps) && fmt == FormatText.Render(ps) && args == FormatText.Arguments(ps) ::
              d.Sent() == old(d.Sent()) + FormatText.Output(ps)
  {
    hide Stream, FormatText.AllOk, FormatText.Render, FormatText.Arguments, FormatText.Output;
    FormatText.EveryReading(fmt, args);
    ghost var was, done, all := d.Sent(), [], Stream(fmt, 0, args);
    var i, a := 0, args;
    while i < |fmt|
      invariant 0 <= i && d.Valid() && d.Sent() == was + done && done + Stream(fmt, i, a) == all
      decreases |fmt| - i
    {
      ghost var out, i0, a0;
      i0, a0 := i, a;
      i, a, out := PrintNext(d, fmt, i, a);
      Regroup(was, done, out);
      Regroup(done, out, Stream(fmt, i, a));
      done := done + out;
    }
    StreamStep(fmt, i, a);
    assert done + [] == done;
  }

  lemma Regroup(a: seq<int>, b: seq<int>, c: seq<int>)
    ensures a + b + c == a + (b + c)
  {}

  // Stores the first n - 1 characters and a NUL, and returns the length of the whole text.
  method VSnprintf(buf: array?<int>, n: int, fmt: seq<int>, args: seq<Arg>) returns (r: int)
    requires buf != null ==> n <= buf.Length
    modifies if buf == null then {} else {buf}
    ensures buf == null || n < 1 ==> r == -E_INVAL && (buf != null ==> buf[..] == old(buf[..]))
    ensures buf != null && n >= 1 ==>
              var text := Stream(fmt, 0, args);
              var k := Min(|text|, n - 1);
              r == |text| && buf[..] == Lows(text[..k]) + [0] + old(buf[k + 1..])
  {
    if buf == null || n < 1 {
      return -E_INVAL;
    }
    var b := new SprintBuf(buf, n);
    VPrintFmt(ToBuffer(b), fmt, args);
    ghost var text := Stream(fmt, 0, args);
    hide Stream, Lows, Flatten;
    ghost var k := Min(|text|, n - 1);
    assert b.sent == text && b.pos == k;
    Terminated(buf[..], Lows(text[..k]), b.was, k);
    buf[b.pos] := 0;
    return b.cnt;
  }

  lemma Terminated(now: seq<int>, stored: seq<int>, was: seq<int>, k: nat)
    requires k < |was| && |stored| == k && now == stored + was[k..]
    ensures now[k := 0] == stored + [0] + was[k + 1..]
  {}

  // The chunks handed to sys_cputs concatenate to the text, none is longer than 255 bytes, and the
  // length of the text is returned.
  method VCPrintf(fmt: seq<int>, args: seq<Arg>) returns (cnt: int, ghost written: seq<seq<int>>)
    ensures cnt == |Stream(fmt, 0, args)|
    ensures Flatten(written) == Lows(Stream(fmt, 0, args))
    ensures forall c :: c in written ==> |c| <= 255
    ensures |written| > 0 && forall i :: 0 <= i < |written| - 1 ==> |written[i]| == 255
  {
    var b := new PrintBuf();
    VPrintFmt(ToConsole(b), fmt, args);
    assert b.sent == Stream(fmt, 0, args);
    ghost var full := b.written;
    b.Cputs(b.idx);
    forall c | c in b.written ensures |c| <= 255 {
      assert c in full || c == b.buf[..b.idx];
    }
    return b.cnt, b.written;
  }
}
