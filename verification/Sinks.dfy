/** The two receivers of formatted output: sprintputch's bounded buffer and putch's flushing buffer. */
module Sinks {
  // The byte stored for an int passed to putch.
  function Low(ch: int): (r: int)
    ensures 0 <= r < 256 && (0 <= ch < 256 ==> r == ch) && (-128 <= ch < 0 ==> r == ch + 256)
  {
    ch % 256
  }

  function Lows(chs: seq<int>): (r: seq<int>)
    ensures |r| == |chs| && forall i :: 0 <= i < |r| ==> r[i] == Low(chs[i])
  {
    seq(|chs|, i requires 0 <= i < |chs| => Low(chs[i]))
  }

  function Min(a: nat, b: nat): nat { if a <= b then a else b }

  // struct sprintbuf: buf and ebuf as offsets into the caller's buffer.
  class SprintBuf {
    const buf: array<int>
    const ebuf: nat
    var pos: nat
    var cnt: int
    ghost var sent: seq<int>
    ghost const was: seq<int>     // the caller's buffer before the first character

    constructor (buf: array<int>, n: nat)
      requires 1 <= n <= buf.Length
      ensures Valid() && this.buf == buf && ebuf == n - 1 && sent == [] && was == buf[..]
    {
      this.buf, ebuf, pos, cnt, sent, was := buf, n - 1, 0, 0, [], buf[..];
    }

    // The first ebuf characters have been stored, all have been counted.
    ghost predicate Valid()
      reads this, buf
    {
      && ebuf < buf.Length == |was| && pos == Min(|sent|, ebuf) && cnt == |sent|
      && buf[..] == Lows(sent[..pos]) + was[pos..]
    }

    method Sprintputch(ch: int)
      requires Valid()
      modifies this, buf
      ensures Valid() && sent == old(sent) + [ch]
    {
      cnt := cnt + 1;
      if pos < ebuf {
        buf[pos] := Low(ch);
        pos := pos + 1;
      }
      sent := sent + [ch];
      assert sent[..old(pos)] == old(sent)[..old(pos)];
    }
  }

  function Flatten(chunks: seq<seq<int>>): seq<int> {
    if chunks == [] then [] else Flatten(chunks[..|chunks| - 1]) + chunks[|chunks| - 1]
  }

  lemma LowsAppend(chs: seq<int>, ch: int)
    ensures Lows(chs + [ch]) == Lows(chs) + [Low(ch)]
  {}

  // struct printbuf, and the strings passed to sys_cputs so far.
  class PrintBuf {
    const buf: array<int>
    var idx: nat
    var cnt: int
    ghost var written: seq<seq<int>>
    ghost var sent: seq<int>

    constructor ()
      ensures Valid() && sent == [] && written == [] && fresh(buf)
    {
      buf := new int[256](_ => 0);
      idx, cnt, written, sent := 0, 0, [], [];
    }

    // What has been written and what is still in the buffer is what was sent, in order.
    ghost predicate Valid()
      reads this, buf
    {
      && buf.Length == 256 && idx < 255 && cnt == |sent|
      && Flatten(written) + buf[..idx] == Lows(sent)
      && forall c :: c in written ==> |c| == 255
    }

    method Putch(ch: int)
      requires Valid()
      modifies this, buf
      ensures Valid() && sent == old(sent) + [ch]
    {
      ghost var all, chunks, held := Lows(sent), written, buf[..idx];
      hide Lows, Low, Flatten;
      LowsAppend(sent, ch);
      buf[idx] := Low(ch);
      idx := idx + 1;
      sent := sent + [ch];
      assert buf[..idx] == held + [Low(ch)];
      assert Flatten(chunks) + (held + [Low(ch)]) == all + [Low(ch)];
      if idx == 256 - 1 {
        Cputs(idx);
        idx := 0;
        assert Flatten(written) + [] == Lows(sent);
      }
      cnt := cnt + 1;
    }

    // sys_cputs(b->buf, n)
    method Cputs(n: nat)
      requires n <= buf.Length
      modifies `written
      ensures written == old(written) + [buf[..n]] && Flatten(written) == old(Flatten(written)) + buf[..n]
    {
      ghost var all := written + [buf[..n]];
      assert all[..|all| - 1] == written;
      written := all;
    }
  }

  // The (putch, putdat) pair of vprintfmt.
  datatype Putdat = ToBuffer(b: SprintBuf) | ToConsole(p: PrintBuf)
  {
    ghost function Footprint(): set<object> {
      match this
      case ToBuffer(b) => {b, b.buf}
      case ToConsole(p) => {p, p.buf}
    }

    ghost predicate Valid()
      reads Footprint()
    {
      match this
      case ToBuffer(b) => b.Valid()
      case ToConsole(p) => p.Valid()
    }

    // Every character received, whole.
    ghost function Sent(): seq<int>
      reads Footprint()
    {
      match this
      case ToBuffer(b) => b.sent
      case ToConsole(p) => p.sent
    }

    method Putch(ch: int)
      requires Valid()
      modifies Footprint()
      ensures Valid() && Sent() == old(Sent()) + [ch]
    {
      match this
      case ToBuffer(b) => b.Sprintputch(ch);
      case ToConsole(p) => p.Putch(ch);
    }
  }
}
