// The text console as values: one video page with a cursor, and the unbounded
// sheet of paper of which the page shows the last 25 rows.
module Console {
  import opened Types

  const WIDTH := 80
  const HEIGHT := 25
  const CELLS := WIDTH * HEIGHT
  const WHITE: Byte := 0x0F
  const TAB_SPACE_NUM := 4
  const MAX_SIZE := 0x1000

  // The fields of terminal_struct that the console and the line editor use.
  datatype Term = Term(
    cursorX: int, cursorY: int, scrollIndex: int,
    bufferFlag: int, enterFlag: int, bufferSize: int,
    buffer: seq<Byte>, storage: seq<Byte>)

  // What belongs to one terminal: the page its output goes to, and its fields.
  datatype Local = Local(page: seq<Byte>, term: Term) {
    ghost predicate Ok() {
      && |page| == FOUR_KB
      && 0 <= term.cursorX < WIDTH && 0 <= term.cursorY < HEIGHT
      && 0 <= term.scrollIndex < 256
    }
  }

  // Character k of the page, in reading order; its colour is the byte after it.
  function Glyph(page: seq<Byte>, k: int): Byte
    requires |page| == FOUR_KB && 0 <= k < CELLS
  {
    page[2 * k]
  }

  function PutAt(page: seq<Byte>, x: int, y: int, ch: Byte): (r: seq<Byte>)
    requires |page| == FOUR_KB && 0 <= x < WIDTH && 0 <= y < HEIGHT
    ensures |r| == FOUR_KB
  {
    page[2 * (y * WIDTH + x) := ch][2 * (y * WIDTH + x) + 1 := WHITE]
  }

  // All rows move up by n at once; the rows that open up are NUL, in white.
  function ScrolledByte(page: seq<Byte>, n: int, i: int): Byte
    requires |page| == FOUR_KB && 0 <= n <= HEIGHT && 0 <= i < FOUR_KB
  {
    if i >= 2 * CELLS then page[i]
    else if i % 2 == 1 then WHITE
    else if i + 2 * WIDTH * n < 2 * CELLS then page[i + 2 * WIDTH * n]
    else NUL
  }

  function Scrolled(page: seq<Byte>, n: int): (r: seq<Byte>)
    requires |page| == FOUR_KB && 0 <= n <= HEIGHT
    ensures |r| == FOUR_KB
  {
    seq(FOUR_KB, i requires 0 <= i < FOUR_KB => ScrolledByte(page, n, i))
  }

  // One step of the cursor to the right, onto the next row or to a new row.
  function Advance(l: Local): (r: Local)
    requires l.Ok()
    ensures r.Ok()
  {
    var t := l.term;
    if t.cursorX == WIDTH - 1 && t.cursorY == HEIGHT - 1 then
      Local(Scrolled(l.page, 1), t.(scrollIndex := (t.scrollIndex + 1) % 256, cursorX := 0, cursorY := HEIGHT - 1))
    else if t.cursorX == WIDTH - 1 then
      l.(term := t.(cursorX := 0, cursorY := t.cursorY + 1))
    else
      l.(term := t.(cursorX := t.cursorX + 1))
  }

  function Reverted(t: Term): Term {
    if t.cursorX == 0 && t.cursorY == 0 then t
    else if t.cursorX == 0 then t.(cursorX := WIDTH - 1, cursorY := t.cursorY - 1)
    else t.(cursorX := t.cursorX - 1)
  }

  function PutHere(l: Local, ch: Byte): (r: Local)
    requires l.Ok()
    ensures r.Ok()
  {
    l.(page := PutAt(l.page, l.term.cursorX, l.term.cursorY, ch))
  }

  function Spaces(l: Local, n: nat): (r: Local)
    requires l.Ok()
    ensures r.Ok()
  {
    if n == 0 then l else Advance(PutHere(Spaces(l, n - 1), SPACE))
  }

  // A backspace is taken only when the cursor has left the top left corner
  // and the terminal's buffer flag allows it.
  predicate CanErase(t: Term) {
    !(t.cursorX == 0 && t.cursorY == 0) && t.bufferFlag == 0
  }

  // One character of write_terminal or write_terminal_from_keyboard.
  function Emit(l: Local, ch: Byte): (r: Local)
    requires l.Ok()
    ensures r.Ok()
  {
    if ch == BACKSPACE then
      if CanErase(l.term) then PutHere(l.(term := Reverted(l.term)), NUL) else l
    else if ch == NEWLINE then Advance(l.(term := l.term.(cursorX := WIDTH - 1)))
    else if ch == TAB then Spaces(l, TAB_SPACE_NUM)
    else Advance(PutHere(l, ch))
  }

  function EmitAll(l: Local, text: seq<Byte>): (r: Local)
    requires l.Ok()
    ensures r.Ok()
    decreases |text|
  {
    if text == [] then l else Emit(EmitAll(l, text[..|text| - 1]), text[|text| - 1])
  }

  // The cell of a terminal's cursor, as the display controller counts.
  function CursorCell(t: Term): int { t.cursorY * WIDTH + t.cursorX }

  // Where the display's cursor stands after a text that was shown: every
  // character moves it, except a backspace that is not taken.
  function Displayed(l: Local, text: seq<Byte>, cell: int): int
    requires l.Ok()
    decreases |text|
  {
    if text == [] then cell
    else
      var n := |text| - 1;
      if text[n] == BACKSPACE && !CanErase(EmitAll(l, text[..n]).term) then Displayed(l, text[..n], cell)
      else CursorCell(EmitAll(l, text).term)
  }

  // A display's cursor that stands with the terminal stays with it.
  lemma {:induction false} DisplayFollows(l: Local, text: seq<Byte>)
    requires l.Ok()
    ensures Displayed(l, text, CursorCell(l.term)) == CursorCell(EmitAll(l, text).term)
    decreases |text|
  {
    if text != [] { DisplayFollows(l, text[..|text| - 1]); }
  }

  // The console keeps everything but the cursor and the scroll count.
  lemma {:induction false} EmitKeepsBuffers(l: Local, ch: Byte)
    requires l.Ok()
    ensures var t, t' := l.term, Emit(l, ch).term;
      t' == t.(cursorX := t'.cursorX, cursorY := t'.cursorY, scrollIndex := t'.scrollIndex)
  {
    if ch == TAB { SpacesKeepBuffers(l, TAB_SPACE_NUM); }
  }

  lemma {:induction false} SpacesKeepBuffers(l: Local, n: nat)
    requires l.Ok()
    ensures var t, t' := l.term, Spaces(l, n).term;
      t' == t.(cursorX := t'.cursorX, cursorY := t'.cursorY, scrollIndex := t'.scrollIndex)
  {
    if n > 0 { SpacesKeepBuffers(l, n - 1); }
  }

  // ----- The sheet of paper -----

  // Rows of 80 characters, of which the last 25 are on the screen; top counts
  // the rows above the screen and pos is the cell of the cursor.
  datatype Paper = Paper(sheet: seq<Byte>, top: nat, pos: nat) {
    ghost predicate Ok() {
      |sheet| == WIDTH * (top + HEIGHT) && WIDTH * top <= pos < |sheet|
    }
  }

  function Nuls(n: nat): seq<Byte> {
    seq(n, _ => NUL)
  }

  // Moving on never moves a character: at the end of the sheet a row is added.
  function PaperAdvance(p: Paper): (r: Paper)
    requires p.Ok()
    ensures r.Ok()
  {
    if p.pos + 1 == |p.sheet| then Paper(p.sheet + Nuls(WIDTH), p.top + 1, p.pos + 1)
    else p.(pos := p.pos + 1)
  }

  function PaperPut(p: Paper, ch: Byte): (r: Paper)
    requires p.Ok()
    ensures r.Ok()
  {
    p.(sheet := p.sheet[p.pos := ch])
  }

  function PaperSpaces(p: Paper, n: nat): (r: Paper)
    requires p.Ok()
    ensures r.Ok()
  {
    if n == 0 then p else PaperAdvance(PaperPut(PaperSpaces(p, n - 1), SPACE))
  }

  function PaperEmit(p: Paper, ch: Byte, bufferFlag: int): (r: Paper)
    requires p.Ok()
    ensures r.Ok()
  {
    if ch == BACKSPACE then
      if p.pos != WIDTH * p.top && bufferFlag == 0 then PaperPut(p.(pos := p.pos - 1), NUL) else p
    else if ch == NEWLINE then PaperAdvance(p.(pos := p.pos - p.pos % WIDTH + WIDTH - 1))
    else if ch == TAB then PaperSpaces(p, TAB_SPACE_NUM)
    else PaperAdvance(PaperPut(p, ch))
  }

  function PaperEmitAll(p: Paper, text: seq<Byte>, bufferFlag: int): (r: Paper)
    requires p.Ok()
    ensures r.Ok()
    decreases |text|
  {
    if text == [] then p else PaperEmit(PaperEmitAll(p, text[..|text| - 1], bufferFlag), text[|text| - 1], bufferFlag)
  }

  // The screen shows the last 25 rows of the paper.
  ghost predicate Shows(l: Local, p: Paper)
    requires l.Ok() && p.Ok()
  {
    && p.pos == WIDTH * (p.top + l.term.cursorY) + l.term.cursorX
    && l.term.scrollIndex == p.top % 256
    && forall k :: 0 <= k < CELLS ==> Glyph(l.page, k) == p.sheet[WIDTH * p.top + k]
  }

  lemma ScrolledGlyph(page: seq<Byte>, k: int)
    requires |page| == FOUR_KB && 0 <= k < CELLS
    ensures Glyph(Scrolled(page, 1), k) == if k + WIDTH < CELLS then Glyph(page, k + WIDTH) else NUL
  {
    assert Scrolled(page, 1)[2 * k] == ScrolledByte(page, 1, 2 * k);
  }

  lemma AdvanceShows(l: Local, p: Paper)
    requires l.Ok() && p.Ok() && Shows(l, p)
    ensures Shows(Advance(l), PaperAdvance(p))
  {
    var l', p' := Advance(l), PaperAdvance(p);
    hide Scrolled;
    if p.pos + 1 == |p.sheet| {
      forall k | 0 <= k < CELLS ensures Glyph(l'.page, k) == p'.sheet[WIDTH * p'.top + k] {
        ScrolledGlyph(l.page, k);
        if k + WIDTH < CELLS { assert Glyph(l.page, k + WIDTH) == p.sheet[WIDTH * p.top + (k + WIDTH)]; }
      }
    }
  }

  lemma PutShows(l: Local, p: Paper, ch: Byte)
    requires l.Ok() && p.Ok() && Shows(l, p)
    ensures Shows(PutHere(l, ch), PaperPut(p, ch))
  {
    var l' := PutHere(l, ch);
    var c := l.term.cursorY * WIDTH + l.term.cursorX;
    forall k | 0 <= k < CELLS ensures Glyph(l'.page, k) == if k == c then ch else Glyph(l.page, k) {}
  }

  lemma {:induction false} SpacesShow(l: Local, p: Paper, n: nat)
    requires l.Ok() && p.Ok() && Shows(l, p)
    ensures Shows(Spaces(l, n), PaperSpaces(p, n))
  {
    if n > 0 {
      SpacesShow(l, p, n - 1);
      PutShows(Spaces(l, n - 1), PaperSpaces(p, n - 1), SPACE);
      AdvanceShows(PutHere(Spaces(l, n - 1), SPACE), PaperPut(PaperSpaces(p, n - 1), SPACE));
    }
  }

  lemma EmitShows(l: Local, p: Paper, ch: Byte)
    requires l.Ok() && p.Ok() && Shows(l, p)
    ensures Shows(Emit(l, ch), PaperEmit(p, ch, l.term.bufferFlag))
  {
    if ch == BACKSPACE {
      if CanErase(l.term) { PutShows(l.(term := Reverted(l.term)), p.(pos := p.pos - 1), NUL); }
    } else if ch == NEWLINE {
      var y := l.term.cursorY;
      assert p.pos - p.pos % WIDTH == WIDTH * (p.top + y);
      AdvanceShows(l.(term := l.term.(cursorX := WIDTH - 1)), p.(pos := p.pos - p.pos % WIDTH + WIDTH - 1));
    } else if ch == TAB {
      SpacesShow(l, p, TAB_SPACE_NUM);
    } else {
      PutShows(l, p, ch);
      AdvanceShows(PutHere(l, ch), PaperPut(p, ch));
    }
  }

  lemma {:induction false} EmitAllKeepsBuffers(l: Local, text: seq<Byte>)
    requires l.Ok()
    ensures var t, t' := l.term, EmitAll(l, text).term;
      t' == t.(cursorX := t'.cursorX, cursorY := t'.cursorY, scrollIndex := t'.scrollIndex)
    decreases |text|
  {
    if text != [] {
      EmitAllKeepsBuffers(l, text[..|text| - 1]);
      EmitKeepsBuffers(EmitAll(l, text[..|text| - 1]), text[|text| - 1]);
    }
  }

  // The console is a sliding window over the paper, for every text.
  lemma {:induction false} ConsoleIsWindow(l: Local, p: Paper, text: seq<Byte>)
    requires l.Ok() && p.Ok() && Shows(l, p)
    ensures Shows(EmitAll(l, text), PaperEmitAll(p, text, l.term.bufferFlag))
    decreases |text|
  {
    if text != [] {
      var n := |text| - 1;
      ConsoleIsWindow(l, p, text[..n]);
      EmitAllKeepsBuffers(l, text[..n]);
      EmitShows(EmitAll(l, text[..n]), PaperEmitAll(p, text[..n], l.term.bufferFlag), text[n]);
    }
  }

  // ----- What the paper says -----

  predicate Printable(ch: Byte) { ch != BACKSPACE && ch != NEWLINE && ch != TAB }

  predicate AllPrintable(text: seq<Byte>) { forall k :: 0 <= k < |text| ==> Printable(text[k]) }

  // Rows that have left the screen are never written again.
  lemma {:induction false} HistoryIsKept(p: Paper, text: seq<Byte>, bufferFlag: int)
    requires p.Ok()
    ensures var p' := PaperEmitAll(p, text, bufferFlag);
      p'.top >= p.top && |p'.sheet| >= |p.sheet| && p'.sheet[..WIDTH * p.top] == p.sheet[..WIDTH * p.top]
    decreases |text|
  {
    if text != [] {
      var n := |text| - 1;
      HistoryIsKept(p, text[..n], bufferFlag);
      var q := PaperEmitAll(p, text[..n], bufferFlag);
      EmitKeepsHistory(q, text[n], bufferFlag);
      var p' := PaperEmit(q, text[n], bufferFlag);
      assert p'.sheet[..WIDTH * p.top] == p'.sheet[..WIDTH * q.top][..WIDTH * p.top];
      assert q.sheet[..WIDTH * p.top] == q.sheet[..WIDTH * q.top][..WIDTH * p.top];
    }
  }

  lemma EmitKeepsHistory(p: Paper, ch: Byte, bufferFlag: int)
    requires p.Ok()
    ensures var p' := PaperEmit(p, ch, bufferFlag);
      p'.top >= p.top && |p'.sheet| >= |p.sheet| && p'.sheet[..WIDTH * p.top] == p.sheet[..WIDTH * p.top]
  {
    if ch == TAB { SpacesKeepHistory(p, TAB_SPACE_NUM); }
  }

  lemma {:induction false} SpacesKeepHistory(p: Paper, n: nat)
    requires p.Ok()
    ensures var p' := PaperSpaces(p, n);
      p'.top >= p.top && p'.pos >= p.pos && |p'.sheet| >= |p.sheet| && p'.sheet[..WIDTH * p.top] == p.sheet[..WIDTH * p.top]
  {
    if n > 0 { SpacesKeepHistory(p, n - 1); }
  }

  // Everything from the cursor on is blank.
  ghost predicate BlankAhead(p: Paper)
    requires p.Ok()
  {
    forall k :: p.pos <= k < |p.sheet| ==> p.sheet[k] == NUL
  }

  lemma {:induction false} SpacesKeepBlank(p: Paper, n: nat)
    requires p.Ok() && BlankAhead(p)
    ensures BlankAhead(PaperSpaces(p, n))
  {
    if n > 0 { SpacesKeepBlank(p, n - 1); }
  }

  // Rows not yet reached are NUL, and so is the rest of the cursor's row.
  lemma {:induction false} AheadStaysBlank(p: Paper, text: seq<Byte>, bufferFlag: int)
    requires p.Ok() && BlankAhead(p)
    ensures BlankAhead(PaperEmitAll(p, text, bufferFlag))
    decreases |text|
  {
    if text != [] {
      var n := |text| - 1;
      AheadStaysBlank(p, text[..n], bufferFlag);
      if text[n] == TAB { SpacesKeepBlank(PaperEmitAll(p, text[..n], bufferFlag), TAB_SPACE_NUM); }
    }
  }

  lemma PrintableEmit(p: Paper, ch: Byte, bufferFlag: int)
    requires p.Ok() && Printable(ch)
    ensures var p' := PaperEmit(p, ch, bufferFlag);
      p'.pos == p.pos + 1 && p'.sheet[..p.pos] == p.sheet[..p.pos] && p'.sheet[p.pos] == ch
  {
  }

  // Printable text appears on the paper in one piece, however often it wraps
  // or makes the screen scroll, and what stood before it stays.
  lemma {:induction false} TextInOnePiece(p: Paper, text: seq<Byte>, bufferFlag: int)
    requires p.Ok() && AllPrintable(text)
    ensures var p' := PaperEmitAll(p, text, bufferFlag);
      && p'.pos == p.pos + |text|
      && p'.sheet[..p.pos] == p.sheet[..p.pos]
      && p'.sheet[p.pos..p'.pos] == text
    decreases |text|
  {
    hide PaperEmit;
    if text != [] {
      var n := |text| - 1;
      TextInOnePiece(p, text[..n], bufferFlag);
      var q := PaperEmitAll(p, text[..n], bufferFlag);
      PrintableEmit(q, text[n], bufferFlag);
      var p' := PaperEmit(q, text[n], bufferFlag);
      assert p'.sheet[..p.pos] == p'.sheet[..q.pos][..p.pos];
      assert q.sheet[..p.pos] == q.sheet[..q.pos][..p.pos];
      assert p'.sheet[p.pos..q.pos] == p'.sheet[..q.pos][p.pos..];
      assert q.sheet[p.pos..q.pos] == q.sheet[..q.pos][p.pos..];
      assert text == text[..n] + [text[n]];
    }
  }

  // On the screen: the cells before the cursor spell the text just written,
  // as far back as the screen goes.
  lemma ScreenSpellsText(l: Local, p: Paper, text: seq<Byte>, j: int)
    requires l.Ok() && p.Ok() && Shows(l, p) && AllPrintable(text) && 0 <= j < |text|
    ensures var t := EmitAll(l, text).term;
      var k := t.cursorY * WIDTH + t.cursorX - (|text| - j);
      k >= 0 ==> k < CELLS && Glyph(EmitAll(l, text).page, k) == text[j]
  {
    hide EmitAll, PaperEmitAll;
    ConsoleIsWindow(l, p, text);
    TextInOnePiece(p, text, l.term.bufferFlag);
    var p' := PaperEmitAll(p, text, l.term.bufferFlag);
    assert p'.sheet[p.pos..p'.pos][j] == text[j];
  }

  // A printable character appears in the cell before the new cursor, and the
  // cursor moves in the same way for every such character.
  lemma PrintableMoves(l: Local, ch: Byte)
    requires l.Ok() && Printable(ch)
    ensures var r := Emit(l, ch);
      && r.term == Emit(l, 0).term
      && CursorCell(r.term) != CursorCell(l.term)
      && 0 <= CursorCell(r.term) - 1 < CELLS
      && Glyph(r.page, CursorCell(r.term) - 1) == ch
  {
    var q := PutHere(l, ch);
    assert Glyph(q.page, CursorCell(l.term)) == ch;
    if CursorCell(l.term) == CELLS - 1 {
      assert Glyph(Scrolled(q.page, 1), CELLS - WIDTH - 1) == ScrolledByte(q.page, 1, 2 * (CELLS - WIDTH - 1));
    }
  }

  lemma EmitOne(l: Local, ch: Byte)
    requires l.Ok()
    ensures EmitAll(l, [ch]) == Emit(l, ch)
    ensures EmitAll(l, [ch, ch]) == Emit(Emit(l, ch), ch)
    ensures ch != BACKSPACE ==> forall cell ::
      Displayed(l, [ch], cell) == CursorCell(Emit(l, ch).term) && Displayed(l, [ch, ch], cell) == CursorCell(Emit(Emit(l, ch), ch).term)
  {
    assert [ch][..0] == [] && [ch, ch][..1] == [ch];
    assert EmitAll(l, []) == l;
  }

  // Every screen is the end of some paper.
  function PaperOf(l: Local): (p: Paper)
    requires l.Ok()
    ensures p.Ok() && p.top == l.term.scrollIndex && Shows(l, p)
  {
    var above := WIDTH * l.term.scrollIndex;
    Paper(Nuls(above) + seq(CELLS, k requires 0 <= k < CELLS => Glyph(l.page, k)),
          l.term.scrollIndex, above + l.term.cursorY * WIDTH + l.term.cursorX)
  }

  // ----- What the characters mean, byte by byte -----

  // The page has moved up by one row: the bottom row is empty, every colour is
  // white, and the 96 bytes behind the text are as before.
  ghost predicate ScrolledOnce(before: seq<Byte>, after: seq<Byte>) {
    && |before| == |after| == 4096
    && forall i :: 0 <= i < 4096 ==>
         after[i] == if i >= 4000 then before[i] else if i % 2 == 1 then 0x0F else if i < 3840 then before[i + 160] else 0
  }

  lemma ScrollIsOneRow(page: seq<Byte>)
    requires |page| == 4096
    ensures ScrolledOnce(page, Scrolled(page, 1))
  {
    forall i | 0 <= i < 4096 ensures Scrolled(page, 1)[i] == ScrolledByte(page, 1, i) {}
  }

  // One cell shows a character in white and the rest of the page is as before.
  ghost predicate CellShows(before: seq<Byte>, after: seq<Byte>, cell: int, ch: Byte) {
    && |before| == |after| == 4096 && 0 <= cell < 2000
    && after == before[2 * cell := ch][2 * cell + 1 := 0x0F]
  }

  // The cursor and the scroll count; the rest of the terminal is as before.
  ghost predicate CursorMoved(before: Term, after: Term, cell: int, rows: int) {
    && 0 <= cell < 2000
    && after == before.(cursorX := cell % 80, cursorY := cell / 80, scrollIndex := (before.scrollIndex + rows) % 256)
  }

  // A printable character fills the cursor's cell. The cursor goes one cell
  // on; behind the last cell the page scrolls.
  lemma PrintableLaw(l: Local, ch: Byte)
    requires l.Ok() && ch !in {8, 9, 10}
    ensures var c := 80 * l.term.cursorY + l.term.cursorX;
      var r := Emit(l, ch);
      if c < 1999 then CellShows(l.page, r.page, c, ch) && CursorMoved(l.term, r.term, c + 1, 0)
      else exists filled :: CellShows(l.page, filled, c, ch) && ScrolledOnce(filled, r.page) && CursorMoved(l.term, r.term, 1920, 1)
  {
    var filled := PutHere(l, ch).page;
    assert CellShows(l.page, filled, 80 * l.term.cursorY + l.term.cursorX, ch);
    ScrollIsOneRow(filled);
  }

  // A newline goes to the start of the next row; below the last row the page scrolls.
  lemma NewlineLaw(l: Local)
    requires l.Ok()
    ensures var r := Emit(l, 10);
      if l.term.cursorY < 24 then r.page == l.page && CursorMoved(l.term, r.term, 80 * (l.term.cursorY + 1), 0)
      else ScrolledOnce(l.page, r.page) && CursorMoved(l.term, r.term, 1920, 1)
  {
    ScrollIsOneRow(l.page);
  }

  // A backspace erases the cell before the cursor, on the row above if need
  // be, unless there is none or the terminal's buffer flag forbids it.
  lemma BackspaceLaw(l: Local)
    requires l.Ok()
    ensures var c := 80 * l.term.cursorY + l.term.cursorX;
      var r := Emit(l, 8);
      if c == 0 || l.term.bufferFlag != 0 then r == l
      else CellShows(l.page, r.page, c - 1, 0) && CursorMoved(l.term, r.term, c - 1, 0)
  {
  }

  // A tab is four spaces.
  lemma TabLaw(l: Local)
    requires l.Ok()
    ensures Emit(l, 9) == EmitAll(l, [32, 32, 32, 32])
  {
    var text: seq<Byte> := [32, 32, 32, 32];
    assert text[..3][..2] == text[..2] && text[..2][..1] == text[..1] && text[..1][..0] == [];
    assert text[..4] == text;
    hide PutHere, Advance;
    assert Spaces(l, 0) == EmitAll(l, text[..0]);
    assert Spaces(l, 1) == EmitAll(l, text[..1]);
    assert Spaces(l, 2) == EmitAll(l, text[..2]);
    assert Spaces(l, 3) == EmitAll(l, text[..3]);
  }

  // So it takes four cells, which it fills with spaces, on the sheet of paper.
  lemma TabTakesFourCells(p: Paper, bufferFlag: int)
    requires p.Ok()
    ensures var p' := PaperEmit(p, 9, bufferFlag);
      p'.pos == p.pos + 4 && p'.sheet[..p.pos] == p.sheet[..p.pos] && p'.sheet[p.pos..p'.pos] == [32, 32, 32, 32]
  {
    assert PaperEmit(p, 9, bufferFlag) == PaperSpaces(p, 4);
    hide PaperEmit, PaperSpaces;
    SpacesInOnePiece(p, 4);
    assert seq(4, _ => SPACE) == [32, 32, 32, 32];
  }

  lemma {:induction false} SpacesInOnePiece(p: Paper, n: nat)
    requires p.Ok()
    ensures var p' := PaperSpaces(p, n);
      p'.pos == p.pos + n && p'.sheet[..p.pos] == p.sheet[..p.pos] && p'.sheet[p.pos..p'.pos] == seq(n, _ => SPACE)
  {
    if n > 0 {
      SpacesInOnePiece(p, n - 1);
      var q, p' := PaperSpaces(p, n - 1), PaperSpaces(p, n);
      PutAndAdvance(q, SPACE);
      hide PaperSpaces, PaperAdvance, PaperPut;
      assert p'.sheet[..p.pos] == p'.sheet[..q.pos][..p.pos];
      assert q.sheet[..p.pos] == q.sheet[..q.pos][..p.pos];
      assert p'.sheet[p.pos..q.pos] == p'.sheet[..q.pos][p.pos..];
      assert q.sheet[p.pos..q.pos] == q.sheet[..q.pos][p.pos..];
      assert p'.sheet[p.pos..p'.pos] == p'.sheet[p.pos..q.pos] + [SPACE];
      assert seq(n, _ => SPACE) == seq(n - 1, _ => SPACE) + [SPACE];
    }
  }

  lemma PutAndAdvance(p: Paper, ch: Byte)
    requires p.Ok()
    ensures var p' := PaperAdvance(PaperPut(p, ch));
      p'.pos == p.pos + 1 && p'.sheet[..p.pos] == p.sheet[..p.pos] && p'.sheet[p.pos] == ch
  {
  }
}
