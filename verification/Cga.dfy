/** cga_putc: the 25 x 80 text screen is a window onto a screen that has no end and never scrolls. */
module Cga {
  import opened Bits

  const CRT_COLS: nat := 80
  const CRT_SIZE: nat := 2000
  const BLANK: int := 0x0720       // 0x0700 | ' '
  const BACKSPACE: int := 8
  const TAB: int := 9
  const NEWLINE: int := 10
  const RETURN: int := 13

  // -------------------------------------------------------------------------
  // The unbounded screen
  // -------------------------------------------------------------------------

  // Cells count from the first row ever shown; `top` is the first cell still shown, which the cursor
  // cannot back over.
  datatype Tape = Tape(cells: map<nat, int>, pos: nat, top: nat)

  function CellAt(t: Tape, i: nat): int { if i in t.cells then t.cells[i] else BLANK }

  // if (!(c & ~0xFF)) c |= 0x0700
  function WithAttribute(c: Word): nat { if c < 256 then c + 0x0700 else c }

  function Write(t: Tape, i: nat, c: nat): Tape { t.(cells := t.cells[i := c % 65536]) }

  // Before the screen follows the cursor.
  function Typed(t: Tape, c: Word): Tape
    requires t.top <= t.pos
  {
    var a := WithAttribute(c);
    var k := a % 256;
    if k == BACKSPACE then
      if t.pos > t.top then Write(t.(pos := t.pos - 1), t.pos - 1, a - k + 32) else t
    else if k == NEWLINE then t.(pos := (t.pos / CRT_COLS + 1) * CRT_COLS)
    else if k == RETURN then t.(pos := t.pos / CRT_COLS * CRT_COLS)
    else Write(t, t.pos, a).(pos := t.pos + 1)
  }

  // The window moves down a row when the cursor leaves it.
  function Follow(t: Tape): Tape {
    if t.pos >= t.top + CRT_SIZE then t.(top := t.top + CRT_COLS) else t
  }

  function Put1(t: Tape, c: Word): Tape
    requires t.top <= t.pos
  {
    Follow(Typed(t, c))
  }

  function Spaces(t: Tape, n: nat): Tape
    requires Sane(t)
    ensures Sane(Spaces(t, n))
    decreases n
  {
    if n == 0 then t
    else
      PutSane(t, 32);
      Spaces(Put1(t, 32), n - 1)
  }

  function Put(t: Tape, c: Word): Tape
    requires Sane(t)
  {
    if c % 256 == TAB then Spaces(t, 5) else Put1(t, c)
  }

  // The cursor is in the window, the window starts at a row, nothing below it has been written.
  ghost predicate Sane(t: Tape) {
    && t.top % CRT_COLS == 0 && t.top <= t.pos < t.top + CRT_SIZE
    && forall i :: i in t.cells ==> i < t.top + CRT_SIZE
  }

  lemma PutSane(t: Tape, c: Word)
    requires Sane(t)
    ensures Sane(Put1(t, c)) && Put1(t, c).top >= t.top
  {
    Rows(t.pos, t.top);
  }

  lemma RowOffsets(x: nat)
    ensures (x + CRT_COLS) % CRT_COLS == x % CRT_COLS
  {}

  lemma AttributeKeepsByte(c: Word)
    ensures WithAttribute(c) % 256 == c % 256
  {}

  // Scrolling shows the same screen one row further down.
  lemma FollowWindow(t: Tape, c: Word)
    requires Sane(t)
    ensures var t1, t2 := Typed(t, c), Put1(t, c);
      && t1.top == t.top && t2.cells == t1.cells && t2.pos == t1.pos
      && t2.top == (if t1.pos - t.top >= CRT_SIZE then t.top + CRT_COLS else t.top)
      && forall i :: i >= t.top + CRT_SIZE ==> CellAt(t1, i) == BLANK
  {
    Rows(t.pos, t.top);
  }

  lemma Rows(pos: nat, top: nat)
    requires top % CRT_COLS == 0 && top <= pos < top + CRT_SIZE
    ensures top <= pos / CRT_COLS * CRT_COLS <= pos
    ensures pos < (pos / CRT_COLS + 1) * CRT_COLS <= top + CRT_SIZE
    ensures (pos - top) % CRT_COLS == pos - pos / CRT_COLS * CRT_COLS
  {
    var r, q := top / CRT_COLS, pos / CRT_COLS;
    assert top == CRT_COLS * r && (top + CRT_SIZE) == CRT_COLS * (r + 25);
    assert r <= q < r + 25;
    DivModUnique(pos - top, CRT_COLS, q - r, pos - CRT_COLS * q);
  }

  // A character that is not a tab changes at most the cell under or just before the cursor: nothing
  // that was ever on the screen is moved.
  lemma PutKeepsHistory(t: Tape, c: Word, i: nat)
    requires Sane(t) && i != t.pos && i + 1 != t.pos
    ensures CellAt(Put1(t, c), i) == CellAt(t, i)
  {}

  lemma {:induction false} SpacesSane(t: Tape, n: nat)
    requires Sane(t)
    ensures Spaces(t, n).top >= t.top && Sane(Spaces(t, n))
    decreases n
  {
    if n > 0 {
      PutSane(t, 32);
      SpacesSane(Put1(t, 32), n - 1);
    }
  }

  // The whole text typed so far, on the unbounded screen.
  function PutAll(t: Tape, cs: seq<Word>): (r: Tape)
    requires Sane(t)
    ensures Sane(r)
    decreases |cs|
  {
    if cs == [] then t
    else
      var before := PutAll(t, cs[..|cs| - 1]);
      PutSane(before, cs[|cs| - 1]);
      Put(before, cs[|cs| - 1])
  }

  lemma {:induction false} WindowOnlyGrows(t: Tape, cs: seq<Word>, n: nat)
    requires Sane(t) && n <= |cs|
    ensures PutAll(t, cs).top >= PutAll(t, cs[..n]).top
    decreases |cs|
  {
    if n < |cs| {
      var m := |cs| - 1;
      WindowOnlyGrows(t, cs[..m], n);
      assert cs[..m][..n] == cs[..n];
      var before := PutAll(t, cs[..m]);
      PutSane(before, cs[m]);
      SpacesSane(before, 5);
    } else {
      assert cs[..n] == cs;
    }
  }

  // Plain text appears cell by cell from the cursor on, white on black, however often the window moves
  // meanwhile, and nothing else changes.
  lemma {:induction false} TextAppears(t: Tape, cs: seq<Word>)
    requires Sane(t) && forall c :: c in cs ==> 32 <= c < 256
    ensures var r := PutAll(t, cs);
      && r.pos == t.pos + |cs|
      && forall j: nat :: CellAt(r, j) == if t.pos <= j < t.pos + |cs| then 0x0700 + cs[j - t.pos] else CellAt(t, j)
    decreases |cs|
  {
    if cs != [] {
      var m := |cs| - 1;
      var before := PutAll(t, cs[..m]);
      assert forall c :: c in cs[..m] ==> c in cs;
      assert cs[m] in cs;
      TextAppears(t, cs[..m]);
      OneAppears(before, cs[m]);
    }
  }

  lemma OneAppears(t: Tape, c: Word)
    requires Sane(t) && 32 <= c < 256
    ensures Put(t, c).pos == t.pos + 1
    ensures forall j: nat :: CellAt(Put(t, c), j) == if j == t.pos then 0x0700 + c else CellAt(t, j)
  {
    CharacterShows(t, c);
  }

  predicate IsControl(c: Word) { c % 256 == BACKSPACE || c % 256 == TAB || c % 256 == NEWLINE || c % 256 == RETURN }

  // Any other character is stored under the cursor with its attribute, white on black if it has none.
  lemma CharacterShows(t: Tape, c: Word)
    requires Sane(t) && !IsControl(c)
    ensures Put(t, c).pos == t.pos + 1
    ensures forall j: nat ::
              CellAt(Put(t, c), j) == if j != t.pos then CellAt(t, j) else if c < 256 then 0x0700 + c else c % 65536
  {
    AttributeKeepsByte(c);
    assert Typed(t, c) == Write(t, t.pos, WithAttribute(c)).(pos := t.pos + 1);
    hide Typed;
  }

  // Backspace steps back and leaves a blank there, in the attribute it carries; at the start of the window
  // it does nothing.
  lemma BackspaceErases(t: Tape, c: Word)
    requires Sane(t) && c % 256 == BACKSPACE
    ensures t.pos == t.top ==> Put(t, c) == t
    ensures t.pos > t.top ==>
              && Put(t, c).pos == t.pos - 1 && Put(t, c).top == t.top
              && forall j: nat ::
                   CellAt(Put(t, c), j) == if j != t.pos - 1 then CellAt(t, j)
                                           else if c < 256 then BLANK else c / 256 % 256 * 256 + 32
  {
    AttributeKeepsByte(c);
    var a := WithAttribute(c);
    assert (a - 8 + 32) % 65536 == a / 256 % 256 * 256 + 32;
    assert t.pos > t.top ==> Typed(t, c) == Write(t.(pos := t.pos - 1), t.pos - 1, a - 8 + 32);
    hide Typed;
  }

  // Rubbing out a character just typed.
  lemma EraseUndoes(t: Tape, c: Word)
    requires Sane(t) && 32 <= c < 256 && t.pos + 1 < t.top + CRT_SIZE
    ensures Sane(Put(t, c))
    ensures var r := Put(Put(t, c), BACKSPACE);
      r.pos == t.pos && r.top == t.top && forall j: nat :: CellAt(r, j) == if j == t.pos then BLANK else CellAt(t, j)
  {
    hide Put, IsControl, CellAt;
    Printable(t, c);
    OneAppears(t, c);
    WindowMovesIff(t, c);
    BackspaceErases(Put(t, c), BACKSPACE);
  }

  lemma Printable(t: Tape, c: Word)
    requires Sane(t) && 32 <= c < 256
    ensures !IsControl(c) && c % 256 == c && Sane(Put(t, c))
  {
    PutSane(t, c);
  }

  // A tab is five blanks, scrolling included.
  lemma TabIsFiveBlanks(t: Tape, c: Word)
    requires Sane(t) && c % 256 == TAB
    ensures var r := Put(t, c);
      && Sane(r) && r.pos == t.pos + 5
      && forall j: nat :: CellAt(r, j) == if t.pos <= j < t.pos + 5 then BLANK else CellAt(t, j)
  {
    BlanksAppear(t, 5);
  }

  lemma {:induction false} BlanksAppear(t: Tape, n: nat)
    requires Sane(t)
    ensures var r := Spaces(t, n);
      && r.pos == t.pos + n
      && forall j: nat :: CellAt(r, j) == if t.pos <= j < t.pos + n then BLANK else CellAt(t, j)
    decreases n
  {
    hide Put1, Put, CellAt;
    if n > 0 {
      BlankAppears(t);
      SpacesStep(t, n);
      BlanksAppear(Put1(t, 32), n - 1);
    } else {
      NoBlanks(t);
    }
  }

  lemma BlankAppears(t: Tape)
    requires Sane(t)
    ensures Put1(t, 32).pos == t.pos + 1
    ensures forall j: nat :: CellAt(Put1(t, 32), j) == if j == t.pos then BLANK else CellAt(t, j)
  {
    hide Put1, CellAt;
    OneAppears(t, 32);
  }

  lemma NoBlanks(t: Tape)
    requires Sane(t)
    ensures Spaces(t, 0) == t
  {}

  // The window moves down one row, exactly if the cursor would leave it: a character in the last cell, or a
  // newline in the last row.
  lemma WindowMovesIff(t: Tape, c: Word)
    requires Sane(t) && c % 256 != TAB
    ensures var last := t.top + CRT_SIZE;
      Put(t, c).top == if (c % 256 == NEWLINE && t.pos >= last - CRT_COLS) || (!IsControl(c) && t.pos == last - 1)
                       then t.top + CRT_COLS else t.top
  {
    AttributeKeepsByte(c);
    Rows(t.pos, t.top);
    var r, q := t.top / CRT_COLS, t.pos / CRT_COLS;
    assert t.top == CRT_COLS * r && CRT_COLS * q <= t.pos < CRT_COLS * (q + 1);
  }

  // A carriage return goes to the start of the row, a newline to the start of the next.
  lemma RowStarts(t: Tape)
    requires Sane(t)
    ensures var r := Put(t, RETURN); r.pos % CRT_COLS == 0 && r.pos <= t.pos < r.pos + CRT_COLS && r.cells == t.cells
    ensures var r := Put(t, NEWLINE); r.pos % CRT_COLS == 0 && r.pos - CRT_COLS <= t.pos < r.pos && r.cells == t.cells
  {
    var q := t.pos / CRT_COLS;
    assert Typed(t, RETURN) == t.(pos := q * CRT_COLS) && Typed(t, NEWLINE) == t.(pos := (q + 1) * CRT_COLS);
    DivModUnique(q * CRT_COLS, CRT_COLS, q, 0);
    DivModUnique((q + 1) * CRT_COLS, CRT_COLS, q + 1, 0);
    hide Typed;
  }

  // -------------------------------------------------------------------------
  // The hardware screen
  // -------------------------------------------------------------------------

  class Crt {
    const crtBuf: array<int>
    var crtPos: nat
    ghost var tape: Tape
    ghost var typed: seq<Word>
    ghost const start: Tape

    constructor (buf: array<int>, pos: nat)
      requires buf.Length == CRT_SIZE && pos < CRT_SIZE
      ensures Valid() && crtBuf == buf && crtPos == pos && typed == []
    {
      crtBuf, crtPos, typed := buf, pos, [];
      var t := Tape(map i | 0 <= i < CRT_SIZE :: buf[i], pos, 0);
      tape := t;
      start := t;
    }

    // The buffer is the window of the unbounded screen on which the same text has been typed.
    ghost predicate Valid()
      reads this, crtBuf
    {
      && Sane(start) && tape == PutAll(start, typed)
      && Shows()
    }

    ghost predicate Shows()
      reads this, crtBuf
    {
      && Sane(tape) && crtBuf.Length == CRT_SIZE
      && crtPos == tape.pos - tape.top
      && forall i :: 0 <= i < CRT_SIZE ==> crtBuf[i] == CellAt(tape, tape.top + i)
    }

    // memmove by one row, and the fill of the last row.
    method Scroll()
      requires crtBuf.Length == CRT_SIZE && CRT_SIZE <= crtPos
      modifies `crtPos, crtBuf
      ensures crtPos == old(crtPos) - CRT_COLS
      ensures forall i :: 0 <= i < CRT_SIZE ==>
                crtBuf[i] == if i < CRT_SIZE - CRT_COLS then old(crtBuf[i + CRT_COLS]) else BLANK
    {
      var i := 0;
      while i < CRT_SIZE - CRT_COLS
        invariant 0 <= i <= CRT_SIZE - CRT_COLS && crtPos == old(crtPos)
        invariant forall j :: 0 <= j < i ==> crtBuf[j] == old(crtBuf[j + CRT_COLS])
        invariant forall j :: i <= j < CRT_SIZE ==> crtBuf[j] == old(crtBuf[j])
      {
        crtBuf[i] := crtBuf[i + CRT_COLS];
        i := i + 1;
      }
      while i < CRT_SIZE
        invariant CRT_SIZE - CRT_COLS <= i <= CRT_SIZE && crtPos == old(crtPos)
        invariant forall j :: 0 <= j < CRT_SIZE - CRT_COLS ==> crtBuf[j] == old(crtBuf[j + CRT_COLS])
        invariant forall j :: CRT_SIZE - CRT_COLS <= j < i ==> crtBuf[j] == BLANK
      {
        crtBuf[i] := BLANK;
        i := i + 1;
      }
      crtPos := crtPos - CRT_COLS;
    }

    // The switch of cga_putc on a character other than a tab.
    method TypePlain(c: Word)
      requires Shows() && c % 256 != TAB
      modifies `crtPos, crtBuf
      ensures var t := Typed(tape, c);
        && crtPos == t.pos - t.top
        && forall i :: 0 <= i < CRT_SIZE ==> crtBuf[i] == CellAt(t, t.top + i)
    {
      Rows(tape.pos, tape.top);
      RowOffsets(crtPos);
      var a := WithAttribute(c);
      var k := a % 256;
      AttributeKeepsByte(c);
      if k == BACKSPACE {
        if crtPos > 0 {
          crtPos := crtPos - 1;
          crtBuf[crtPos] := (a - k + 32) % 65536;
        }
      } else if k == NEWLINE {
        crtPos := crtPos + CRT_COLS;
        crtPos := crtPos - crtPos % CRT_COLS;
      } else if k == RETURN {
        crtPos := crtPos - crtPos % CRT_COLS;
      } else {
        crtBuf[crtPos] := a % 65536;
        crtPos := crtPos + 1;
      }
    }

    // The switch, and the scroll after it.
    method PutPlain(c: Word)
      requires Shows() && c % 256 != TAB
      modifies `crtPos, `tape, crtBuf
      ensures Shows() && tape == Put1(old(tape), c)
    {
      hide Put1, Typed;
      ghost var t, t1 := tape, Typed(tape, c);
      PutSane(t, c);
      FollowWindow(t, c);
      TypePlain(c);
      assert forall i :: 0 <= i < CRT_SIZE ==> crtBuf[i] == CellAt(t1, t1.top + i);
      if crtPos >= CRT_SIZE {
        Scroll();
        assert forall i :: 0 <= i < CRT_SIZE ==> crtBuf[i] == CellAt(t1, t1.top + CRT_COLS + i);
      }
      tape := Put1(t, c);
    }

    method CgaPutc(c: Word)
      requires Valid()
      modifies this, crtBuf
      ensures Valid() && crtPos < CRT_SIZE && typed == old(typed) + [c]
    {
      hide PutAll, Put1, Spaces;
      ghost var before := tape;
      if c % 256 == TAB {
        FiveSpaces(before);
        PutPlain(32);
        PutPlain(32);
        PutPlain(32);
        PutPlain(32);
        PutPlain(32);
      } else {
        PutPlain(c);
      }
      PutAllStep(start, typed, c);
      typed := typed + [c];
    }
  }

  lemma FiveSpaces(t: Tape)
    requires Sane(t)
    ensures var t1 := Put1(t, 32);
      && Sane(t1) && Sane(Put1(t1, 32)) && Sane(Put1(Put1(t1, 32), 32)) && Sane(Put1(Put1(Put1(t1, 32), 32), 32))
      && Spaces(t, 5) == Put1(Put1(Put1(Put1(t1, 32), 32), 32), 32)
  {
    var t1 := Put1(t, 32);
    PutSane(t, 32);
    var t2 := Put1(t1, 32);
    PutSane(t1, 32);
    var t3 := Put1(t2, 32);
    PutSane(t2, 32);
    var t4 := Put1(t3, 32);
    PutSane(t3, 32);
    PutSane(t4, 32);
    hide Put1, Sane;
    SpacesStep(t, 5);
    SpacesStep(t1, 4);
    SpacesStep(t2, 3);
    SpacesStep(t3, 2);
    SpacesStep(t4, 1);
  }

  lemma SpacesStep(t: Tape, n: nat)
    requires Sane(t) && n > 0
    ensures Sane(Put1(t, 32)) && Spaces(t, n) == Spaces(Put1(t, 32), n - 1)
    ensures n == 1 ==> Spaces(t, n) == Put1(t, 32)
  {
    PutSane(t, 32);
    hide Put1, Sane;
  }

  lemma PutAllStep(t: Tape, cs: seq<Word>, c: Word)
    requires Sane(t)
    ensures PutAll(t, cs + [c]) == Put(PutAll(t, cs), c)
  {
    assert (cs + [c])[..|cs|] == cs;
  }
}
