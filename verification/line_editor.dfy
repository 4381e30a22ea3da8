// The keyboard's line editor: the 128-byte edit buffer as a fold over keys,
// and its agreement with what the keys put on the screen.
module LineEditor {
  import opened Types
  import opened Console

  const MAX_BUFFER_SIZE := 128
  const LETTER_L: Byte := 108

  // A character from the key tables, with the state of the control key.
  datatype Key = Key(ch: Byte, ctrl: bool)

  ghost predicate BuffersOk(t: Term) {
    |t.buffer| == MAX_SIZE && |t.storage| == MAX_SIZE && 0 <= t.bufferSize <= MAX_BUFFER_SIZE
  }

  // ----- The fields of the terminal -----

  function CopiedBuffer(t: Term): Term
    requires |t.buffer| == MAX_SIZE && |t.storage| == MAX_SIZE
  {
    t.(storage := t.buffer[..MAX_BUFFER_SIZE] + t.storage[MAX_BUFFER_SIZE..])
  }

  function CleanedBuffer(t: Term): Term
    requires |t.buffer| == MAX_SIZE
  {
    t.(buffer := Nuls(MAX_BUFFER_SIZE) + t.buffer[MAX_BUFFER_SIZE..], bufferSize := 0, bufferFlag := 1)
  }

  // close_terminal, which halt calls for the scheduled terminal.
  function ClosedTerminal(t: Term): Term
    requires |t.buffer| == MAX_SIZE
  {
    CleanedBuffer(t.(storage := Nuls(MAX_SIZE)))
  }

  function ClearedByte(page: seq<Byte>, i: int): Byte
    requires |page| == FOUR_KB && 0 <= i < FOUR_KB
  {
    if i >= 2 * CELLS then page[i] else if i % 2 == 1 then WHITE else SPACE
  }

  function ClearedPage(page: seq<Byte>): (r: seq<Byte>)
    requires |page| == FOUR_KB
    ensures |r| == FOUR_KB
  {
    seq(FOUR_KB, i requires 0 <= i < FOUR_KB => ClearedByte(page, i))
  }

  function ClearedScreen(l: Local): (r: Local)
    requires l.Ok()
    ensures r.Ok()
  {
    Local(ClearedPage(l.page), l.term.(cursorX := 0, cursorY := 0))
  }

  function AppendSpaces(t: Term, n: nat): (r: Term)
    requires BuffersOk(t) && t.bufferSize + n <= MAX_BUFFER_SIZE
    ensures BuffersOk(r) && r.bufferSize == t.bufferSize + n
    ensures r == t.(buffer := r.buffer, storage := r.storage, bufferSize := r.bufferSize)
  {
    if n == 0 then t
    else
      var u := AppendSpaces(t, n - 1);
      CopiedBuffer(u.(buffer := u.buffer[u.bufferSize := SPACE], bufferSize := u.bufferSize + 1))
  }

  // Shows a character and copies the edit buffer into the storage buffer.
  function Echoed(l: Local, ch: Byte): (r: Local)
    requires l.Ok() && BuffersOk(l.term)
    ensures r.Ok()
  {
    EmitKeepsBuffers(l, ch);
    var e := Emit(l, ch);
    e.(term := CopiedBuffer(e.term))
  }

  // keyboard_fill_buffer.
  function Press(l: Local, k: Key): (r: Local)
    requires l.Ok() && BuffersOk(l.term)
    ensures r.Ok()
  {
    var t := l.term;
    var n := t.bufferSize;
    if k.ch == BACKSPACE then
      if n == 0 then l.(term := CopiedBuffer(t).(bufferFlag := 1))
      else Echoed(l.(term := t.(buffer := t.buffer[n - 1 := NUL], bufferSize := n - 1, bufferFlag := 0)), BACKSPACE)
    else if k.ch == NEWLINE then
      var e := Emit(l.(term := CleanedBuffer(CopiedBuffer(t))), NEWLINE);
      e.(term := e.term.(enterFlag := 1))
    else if k.ctrl && k.ch == LETTER_L then
      var c := ClearedScreen(l.(term := CleanedBuffer(t)));
      c.(term := CopiedBuffer(c.term))
    else if k.ch == TAB then
      var room := MAX_BUFFER_SIZE - n;
      l.(term := AppendSpaces(t.(bufferFlag := 0), if room < TAB_SPACE_NUM then room else TAB_SPACE_NUM))
    else if n < MAX_BUFFER_SIZE then
      Echoed(l.(term := t.(buffer := t.buffer[n := k.ch], bufferSize := n + 1, bufferFlag := 0)), k.ch)
    else l
  }

  function PressAll(l: Local, keys: seq<Key>): (r: Local)
    requires l.Ok() && BuffersOk(l.term)
    ensures r.Ok() && BuffersOk(r.term)
    decreases |keys|
  {
    if keys == [] then l
    else
      var m := PressAll(l, keys[..|keys| - 1]);
      PressKeepsBuffers(m, keys[|keys| - 1]);
      Press(m, keys[|keys| - 1])
  }

  lemma PressKeepsBuffers(l: Local, k: Key)
    requires l.Ok() && BuffersOk(l.term)
    ensures BuffersOk(Press(l, k).term)
  {
    var t := l.term;
    var n := t.bufferSize;
    if k.ch == NEWLINE {
      EmitKeepsBuffers(l.(term := CleanedBuffer(CopiedBuffer(t))), NEWLINE);
    } else if k.ch == BACKSPACE && n > 0 {
      EmitKeepsBuffers(l.(term := t.(buffer := t.buffer[n - 1 := NUL], bufferSize := n - 1, bufferFlag := 0)), BACKSPACE);
    } else if n < MAX_BUFFER_SIZE {
      EmitKeepsBuffers(l.(term := t.(buffer := t.buffer[n := k.ch], bufferSize := n + 1, bufferFlag := 0)), k.ch);
    }
  }

  // ----- The editor as a fold -----

  // The line being edited, and the line in the storage buffer that a reader sees.
  datatype Editor = Editor(line: seq<Byte>, stored: seq<Byte>)

  function Min(a: nat, b: nat): nat { if a < b then a else b }

  function Edit(e: Editor, k: Key): (r: Editor)
    requires |e.line| <= MAX_BUFFER_SIZE
    ensures |r.line| <= MAX_BUFFER_SIZE
  {
    var n := |e.line|;
    if k.ch == BACKSPACE then
      var line := e.line[..if n == 0 then 0 else n - 1];
      Editor(line, line)
    else if k.ch == NEWLINE then Editor([], e.line)
    else if k.ctrl && k.ch == LETTER_L then Editor([], [])
    else if k.ch == TAB then
      var line := e.line + seq(Min(MAX_BUFFER_SIZE - n, TAB_SPACE_NUM), _ => SPACE);
      if n == MAX_BUFFER_SIZE then e else Editor(line, line)
    else if n < MAX_BUFFER_SIZE then Editor(e.line + [k.ch], e.line + [k.ch])
    else e
  }

  function EditAll(e: Editor, keys: seq<Key>): (r: Editor)
    requires |e.line| <= MAX_BUFFER_SIZE
    ensures |r.line| <= MAX_BUFFER_SIZE
    decreases |keys|
  {
    if keys == [] then e else Edit(EditAll(e, keys[..|keys| - 1]), keys[|keys| - 1])
  }

  // A buffer that holds a line and is NUL from there to its end.
  ghost predicate Holds(buffer: seq<Byte>, line: seq<Byte>) {
    && |line| <= MAX_BUFFER_SIZE <= |buffer|
    && buffer[..|line|] == line
    && forall j :: |line| <= j < |buffer| ==> buffer[j] == NUL
  }

  ghost predicate Edits(t: Term, e: Editor) {
    && BuffersOk(t)
    && t.bufferSize == |e.line|
    && Holds(t.buffer, e.line)
    && Holds(t.storage, e.stored)
  }

  lemma CopyHolds(t: Term, line: seq<Byte>, stored: seq<Byte>)
    requires BuffersOk(t) && Holds(t.buffer, line) && Holds(t.storage, stored)
    ensures Holds(CopiedBuffer(t).storage, line)
  {
    assert CopiedBuffer(t).storage[..|line|] == t.buffer[..|line|];
  }

  lemma AppendHolds(buffer: seq<Byte>, line: seq<Byte>, ch: Byte)
    requires Holds(buffer, line) && |line| < MAX_BUFFER_SIZE
    ensures Holds(buffer[|line| := ch], line + [ch])
  {
  }

  lemma DropHolds(buffer: seq<Byte>, line: seq<Byte>)
    requires Holds(buffer, line) && line != []
    ensures Holds(buffer[|line| - 1 := NUL], line[..|line| - 1])
  {
  }

  lemma {:induction false} AppendSpacesHold(t: Term, e: Editor, n: nat)
    requires Edits(t, e) && t.bufferSize + n <= MAX_BUFFER_SIZE
    ensures var line := e.line + seq(n, _ => SPACE);
      Edits(AppendSpaces(t, n), if n == 0 then e else Editor(line, line))
  {
    if n > 0 {
      AppendSpacesHold(t, e, n - 1);
      var u := AppendSpaces(t, n - 1);
      var line := e.line + seq(n - 1, _ => SPACE);
      assert n == 1 ==> line == e.line;
      AppendHolds(u.buffer, line, SPACE);
      assert line + [SPACE] == e.line + seq(n, _ => SPACE);
      CopyHolds(u.(buffer := u.buffer[u.bufferSize := SPACE], bufferSize := u.bufferSize + 1), line + [SPACE], if n == 1 then e.stored else line);
    } else {
      assert e.line + seq(0, _ => SPACE) == e.line;
    }
  }

  // Every key edits the line as the fold says, in the buffer and in the copy.
  lemma PressEdits(l: Local, e: Editor, k: Key)
    requires l.Ok() && Edits(l.term, e)
    ensures Edits(Press(l, k).term, Edit(e, k))
  {
    var t := l.term;
    var n := t.bufferSize;
    hide Emit;
    if k.ch == BACKSPACE {
      if n == 0 {
        CopyHolds(t, [], e.stored);
      } else {
        var u := t.(buffer := t.buffer[n - 1 := NUL], bufferSize := n - 1, bufferFlag := 0);
        EmitKeepsBuffers(l.(term := u), BACKSPACE);
        DropHolds(t.buffer, e.line);
        CopyHolds(u, e.line[..n - 1], e.stored);
      }
    } else if k.ch == NEWLINE {
      CopyHolds(t, e.line, e.stored);
      EmitKeepsBuffers(l.(term := CleanedBuffer(CopiedBuffer(t))), NEWLINE);
    } else if k.ctrl && k.ch == LETTER_L {
      CopyHolds(CleanedBuffer(t), [], e.stored);
    } else if k.ch == TAB {
      AppendSpacesHold(t.(bufferFlag := 0), e, Min(MAX_BUFFER_SIZE - n, TAB_SPACE_NUM));
    } else if n < MAX_BUFFER_SIZE {
      var u := t.(buffer := t.buffer[n := k.ch], bufferSize := n + 1, bufferFlag := 0);
      EmitKeepsBuffers(l.(term := u), k.ch);
      AppendHolds(t.buffer, e.line, k.ch);
      CopyHolds(u, e.line + [k.ch], e.stored);
    }
  }

  // The edit buffer refines the fold over every sequence of keys.
  lemma {:induction false} EditorIsFold(l: Local, e: Editor, keys: seq<Key>)
    requires l.Ok() && Edits(l.term, e)
    ensures Edits(PressAll(l, keys).term, EditAll(e, keys))
    decreases |keys|
  {
    if keys != [] {
      var n := |keys| - 1;
      EditorIsFold(l, e, keys[..n]);
      PressEdits(PressAll(l, keys[..n]), EditAll(e, keys[..n]), keys[n]);
    }
  }

  // ----- Agreement with the screen -----

  // The keys whose effect on the line is also shown: all but the tab.
  predicate Echoes(keys: seq<Key>) {
    forall i :: 0 <= i < |keys| ==> keys[i].ch != TAB
  }

  function PaperClear(p: Paper): (r: Paper)
    requires p.Ok()
    ensures r.Ok()
  {
    Paper(p.sheet[..WIDTH * p.top] + seq(CELLS, _ => SPACE), p.top, WIDTH * p.top)
  }

  // What a key does to the paper when the line before it has n characters.
  function PaperPress(p: Paper, n: nat, k: Key): (r: Paper)
    requires p.Ok()
    ensures r.Ok()
  {
    if k.ch == BACKSPACE then if n == 0 then p else PaperEmit(p, BACKSPACE, 0)
    else if k.ch == NEWLINE then PaperEmit(p, NEWLINE, 1)
    else if k.ctrl && k.ch == LETTER_L then PaperClear(p)
    else if k.ch == TAB then p
    else if n < MAX_BUFFER_SIZE then PaperEmit(p, k.ch, 0)
    else p
  }

  lemma PressKeepsHistory(p: Paper, n: nat, k: Key)
    requires p.Ok()
    ensures var p' := PaperPress(p, n, k);
      p'.top >= p.top && |p'.sheet| >= |p.sheet| && p'.sheet[..WIDTH * p.top] == p.sheet[..WIDTH * p.top]
  {
    hide PaperEmit;
    EmitKeepsHistory(p, k.ch, 0);
    EmitKeepsHistory(p, NEWLINE, 1);
  }

  function PaperPressAll(p: Paper, e: Editor, keys: seq<Key>): (r: Paper)
    requires p.Ok() && |e.line| <= MAX_BUFFER_SIZE
    ensures r.Ok()
    decreases |keys|
  {
    if keys == [] then p
    else
      var m := |keys| - 1;
      PaperPress(PaperPressAll(p, e, keys[..m]), |EditAll(e, keys[..m]).line|, keys[m])
  }

  lemma PressShows(l: Local, p: Paper, k: Key)
    requires l.Ok() && p.Ok() && BuffersOk(l.term) && Shows(l, p)
    ensures Shows(Press(l, k), PaperPress(p, l.term.bufferSize, k))
  {
    var t := l.term;
    var n := t.bufferSize;
    hide Emit, PaperEmit;
    if k.ch == BACKSPACE {
      if n > 0 { EmitShows(l.(term := t.(buffer := t.buffer[n - 1 := NUL], bufferSize := n - 1, bufferFlag := 0)), p, BACKSPACE); }
    } else if k.ch == NEWLINE {
      EmitShows(l.(term := CleanedBuffer(CopiedBuffer(t))), p, NEWLINE);
    } else if k.ctrl && k.ch == LETTER_L {
      ClearShows(l, p);
    } else if k.ch != TAB && n < MAX_BUFFER_SIZE {
      EmitShows(l.(term := t.(buffer := t.buffer[n := k.ch], bufferSize := n + 1, bufferFlag := 0)), p, k.ch);
    }
  }

  lemma ClearShows(l: Local, p: Paper)
    requires l.Ok() && p.Ok() && Shows(l, p)
    ensures Shows(ClearedScreen(l), PaperClear(p))
  {
    forall k | 0 <= k < CELLS ensures Glyph(ClearedScreen(l).page, k) == PaperClear(p).sheet[WIDTH * p.top + k] {
      assert Glyph(ClearedScreen(l).page, k) == ClearedByte(l.page, 2 * k);
    }
  }

  // The cells just before the cursor spell the line, and are on the screen.
  ghost predicate Spelled(p: Paper, line: seq<Byte>)
    requires p.Ok()
  {
    && WIDTH * p.top <= p.pos - |line|
    && p.sheet[p.pos - |line|..p.pos] == line
  }

  lemma BackspaceSpells(p: Paper, line: seq<Byte>)
    requires p.Ok() && line != [] && Spelled(p, line)
    ensures Spelled(PaperEmit(p, BACKSPACE, 0), line[..|line| - 1])
  {
    var n := |line|;
    var p' := PaperEmit(p, BACKSPACE, 0);
    assert p'.sheet == p.sheet[p.pos - 1 := NUL];
    forall j | 0 <= j < n - 1 ensures p'.sheet[p.pos - n + j] == line[j] {
      assert p.sheet[p.pos - n..p.pos][j] == line[j];
    }
  }

  lemma PressSpells(p: Paper, e: Editor, k: Key)
    requires p.Ok() && |e.line| <= MAX_BUFFER_SIZE && Spelled(p, e.line) && Echoes([k])
    ensures Spelled(PaperPress(p, |e.line|, k), Edit(e, k).line)
  {
    var n := |e.line|;
    assert [k][0] == k;
    var p' := PaperPress(p, n, k);
    if k.ch == BACKSPACE {
      if n > 0 { BackspaceSpells(p, e.line); }
    } else if k.ch != NEWLINE && !(k.ctrl && k.ch == LETTER_L) && n < MAX_BUFFER_SIZE {
      PrintableEmit(p, k.ch, 0);
      hide PaperEmit;
      assert p'.sheet[p.pos - n..p.pos] == p'.sheet[..p.pos][p.pos - n..];
      assert p.sheet[p.pos - n..p.pos] == p.sheet[..p.pos][p.pos - n..];
    }
  }

  // Typing at an empty line: after any run of keys without a tab the cells
  // before the cursor spell the edit buffer, across wraps and scrolls.
  lemma {:induction false} ScreenSpellsLine(l: Local, p: Paper, e: Editor, keys: seq<Key>)
    requires l.Ok() && p.Ok() && Edits(l.term, e) && Shows(l, p) && Spelled(p, e.line)
    requires Echoes(keys)
    ensures var l', p', e' := PressAll(l, keys), PaperPressAll(p, e, keys), EditAll(e, keys);
      Shows(l', p') && Edits(l'.term, e') && Spelled(p', e'.line)
    decreases |keys|
  {
    if keys != [] {
      var n := |keys| - 1;
      ScreenSpellsLine(l, p, e, keys[..n]);
      var m, q, d := PressAll(l, keys[..n]), PaperPressAll(p, e, keys[..n]), EditAll(e, keys[..n]);
      PressShows(m, q, keys[n]);
      PressEdits(m, d, keys[n]);
      PressSpells(q, d, keys[n]);
    }
  }

  // On the screen itself: typing at an empty line, the bufferSize cells just
  // before the cursor are the edit buffer.
  lemma TypedLineIsOnScreen(l: Local, stored: seq<Byte>, keys: seq<Key>, j: int)
    requires l.Ok() && Edits(l.term, Editor([], stored)) && Echoes(keys)
    requires 0 <= j < PressAll(l, keys).term.bufferSize
    ensures var l' := PressAll(l, keys);
      var k := l'.term.cursorY * WIDTH + l'.term.cursorX - l'.term.bufferSize + j;
      0 <= k < CELLS && Glyph(l'.page, k) == l'.term.buffer[j]
  {
    var p, e := PaperOf(l), Editor([], stored);
    hide PressAll, PaperPressAll, EditAll;
    ScreenSpellsLine(l, p, e, keys);
    CellOfLine(PressAll(l, keys), PaperPressAll(p, e, keys), EditAll(e, keys), j);
  }

  lemma CellOfLine(l: Local, p: Paper, e: Editor, j: int)
    requires l.Ok() && p.Ok() && Shows(l, p) && Edits(l.term, e) && Spelled(p, e.line) && 0 <= j < l.term.bufferSize
    ensures var k := l.term.cursorY * WIDTH + l.term.cursorX - l.term.bufferSize + j;
      0 <= k < CELLS && Glyph(l.page, k) == l.term.buffer[j]
  {
    assert p.sheet[p.pos - |e.line|..p.pos][j] == e.line[j];
    assert l.term.buffer[..|e.line|][j] == e.line[j];
  }

  // The m cells before the line, and the line itself, are on the screen and
  // are all spaces.
  predicate SpacesBefore(p: Paper, n: nat, m: nat)
    requires p.Ok()
  {
    WIDTH * p.top <= p.pos - n - m && forall k :: p.pos - n - m <= k < p.pos ==> p.sheet[k] == SPACE
  }

  // A text that ends with a line and also begins with it, with m spaces
  // behind, is all spaces.
  lemma {:induction false} AllSpaces(text: seq<Byte>, line: seq<Byte>, m: nat, k: nat)
    requires m > 0 && text == line + seq(m, _ => SPACE) && text[m..] == line && k < |text|
    ensures text[k] == SPACE
    decreases |text| - k
  {
    if k < |line| {
      AllSpaces(text, line, m, k + m);
      assert text[m..][k] == line[k];
    }
  }

  // A tab adds m spaces to the line without showing them. The screen still
  // spells the line if and only if no space was added, or the line and the m
  // cells before it are spaces already.
  lemma TabIsShownIff(p: Paper, e: Editor, ctrl: bool)
    requires p.Ok() && |e.line| <= MAX_BUFFER_SIZE && Spelled(p, e.line)
    ensures var n := |e.line|;
      var m := Min(MAX_BUFFER_SIZE - n, TAB_SPACE_NUM);
      Spelled(PaperPress(p, n, Key(TAB, ctrl)), Edit(e, Key(TAB, ctrl)).line) <==> m == 0 || SpacesBefore(p, n, m)
  {
    var n := |e.line|;
    var m := Min(MAX_BUFFER_SIZE - n, TAB_SPACE_NUM);
    TabPress(p, e, ctrl);
    SpelledWider(p, e.line, m);
    hide *;
  }

  lemma SpelledWider(p: Paper, line: seq<Byte>, m: nat)
    requires p.Ok() && Spelled(p, line)
    ensures Spelled(p, line + seq(m, _ => SPACE)) <==> m == 0 || SpacesBefore(p, |line|, m)
  {
    var n := |line|;
    if m == 0 {
      assert line + seq(m, _ => SPACE) == line;
    } else if WIDTH * p.top <= p.pos - n - m {
      var text := p.sheet[p.pos - n - m..p.pos];
      assert text[m..] == p.sheet[p.pos - n..p.pos];
      SpacesOnBothSides(text, line, m);
      SpacesInText(p, n, m);
    }
  }

  lemma TabPress(p: Paper, e: Editor, ctrl: bool)
    requires p.Ok() && |e.line| <= MAX_BUFFER_SIZE
    ensures PaperPress(p, |e.line|, Key(TAB, ctrl)) == p
    ensures Edit(e, Key(TAB, ctrl)).line
      == e.line + seq(Min(MAX_BUFFER_SIZE - |e.line|, TAB_SPACE_NUM), _ => SPACE)
  {
    if |e.line| == MAX_BUFFER_SIZE { assert e.line + seq(0, _ => SPACE) == e.line; }
  }

  ghost predicate AllSpace(text: seq<Byte>) { forall k :: 0 <= k < |text| ==> text[k] == SPACE }

  lemma SpacesInText(p: Paper, n: nat, m: nat)
    requires p.Ok() && WIDTH * p.top <= p.pos - n - m
    ensures SpacesBefore(p, n, m) <==> AllSpace(p.sheet[p.pos - n - m..p.pos])
  {
    var a := p.pos - n - m;
    var text := p.sheet[a..p.pos];
    if SpacesBefore(p, n, m) {
      forall k | 0 <= k < |text| ensures text[k] == SPACE { assert text[k] == p.sheet[a + k]; }
    }
    if AllSpace(text) {
      forall k | a <= k < p.pos ensures p.sheet[k] == SPACE { assert p.sheet[k] == text[k - a]; }
    }
  }

  lemma SpacesOnBothSides(text: seq<Byte>, line: seq<Byte>, m: nat)
    requires m > 0 && |text| == |line| + m && text[m..] == line
    ensures text == line + seq(m, _ => SPACE) <==> AllSpace(text)
  {
    if text == line + seq(m, _ => SPACE) {
      forall k | 0 <= k < |text| ensures text[k] == SPACE { AllSpaces(text, line, m, k); }
    }
    if AllSpace(text) {
      assert forall k :: 0 <= k < |line| ==> line[k] == text[m + k];
      assert text == line + seq(m, _ => SPACE);
    }
  }

  // So the agreement is lost whenever some character of the line is not a space.
  lemma TabIsNotShown(p: Paper, e: Editor, ctrl: bool, k: nat)
    requires p.Ok() && |e.line| < MAX_BUFFER_SIZE && Spelled(p, e.line)
    requires k < |e.line| && e.line[k] != SPACE
    ensures !Spelled(PaperPress(p, |e.line|, Key(TAB, ctrl)), Edit(e, Key(TAB, ctrl)).line)
  {
    TabIsShownIff(p, e, ctrl);
    assert p.sheet[p.pos - |e.line|..p.pos][k] == p.sheet[p.pos - |e.line| + k];
  }

  // ----- What the keys mean -----

  // The flag that ends a read: Enter sets it, no other key touches it.
  lemma EnterFlagLaw(l: Local, k: Key)
    requires l.Ok() && BuffersOk(l.term)
    ensures Press(l, k).term.enterFlag == if k.ch == 10 then 1 else l.term.enterFlag
  {
    var t := l.term;
    var n := t.bufferSize;
    hide Emit;
    if k.ch == BACKSPACE {
      if n > 0 { EmitKeepsBuffers(l.(term := t.(buffer := t.buffer[n - 1 := NUL], bufferSize := n - 1, bufferFlag := 0)), BACKSPACE); }
    } else if k.ch == NEWLINE {
      EmitKeepsBuffers(l.(term := CleanedBuffer(CopiedBuffer(t))), NEWLINE);
    } else if n < MAX_BUFFER_SIZE {
      EmitKeepsBuffers(l.(term := t.(buffer := t.buffer[n := k.ch], bufferSize := n + 1, bufferFlag := 0)), k.ch);
    }
  }

  ghost predicate HasEnter(keys: seq<Key>) { exists i :: 0 <= i < |keys| && keys[i].ch == 10 }

  lemma LastOrBefore(keys: seq<Key>)
    requires keys != []
    ensures HasEnter(keys) <==> HasEnter(keys[..|keys| - 1]) || keys[|keys| - 1].ch == 10
  {
    var n := |keys| - 1;
    if i :| 0 <= i < |keys| && keys[i].ch == 10 { assert i < n ==> keys[..n][i].ch == 10; }
    if i :| 0 <= i < n && keys[..n][i].ch == 10 { assert keys[i].ch == 10; }
  }

  // A reader that waits for the flag goes on if and only if Enter was pressed.
  lemma {:induction false} EnterEndsWait(l: Local, keys: seq<Key>)
    requires l.Ok() && BuffersOk(l.term)
    ensures PressAll(l, keys).term.enterFlag == if HasEnter(keys) then 1 else l.term.enterFlag
    decreases |keys|
  {
    hide HasEnter, Press;
    if keys == [] {
      NoEnter(keys);
    } else {
      var n := |keys| - 1;
      EnterEndsWait(l, keys[..n]);
      EnterFlagLaw(PressAll(l, keys[..n]), keys[n]);
      LastOrBefore(keys);
    }
  }

  lemma NoEnter(keys: seq<Key>)
    requires keys == []
    ensures !HasEnter(keys)
  {
  }

  // The flag that forbids processes to erase: set by Enter, by Ctrl-L and by a
  // backspace on an empty line, cleared by every other key that the line takes.
  lemma BufferFlagLaw(l: Local, k: Key)
    requires l.Ok() && BuffersOk(l.term)
    ensures Press(l, k).term.bufferFlag ==
      if k.ch == 10 || (k.ctrl && k.ch == 108) || (k.ch == 8 && l.term.bufferSize == 0) then 1
      else if l.term.bufferSize == 128 && k.ch !in {8, 9} then l.term.bufferFlag
      else 0
  {
    var t := l.term;
    var n := t.bufferSize;
    hide Emit;
    if k.ch == BACKSPACE {
      if n > 0 { EmitKeepsBuffers(l.(term := t.(buffer := t.buffer[n - 1 := NUL], bufferSize := n - 1, bufferFlag := 0)), BACKSPACE); }
    } else if k.ch == NEWLINE {
      EmitKeepsBuffers(l.(term := CleanedBuffer(CopiedBuffer(t))), NEWLINE);
    } else if n < MAX_BUFFER_SIZE {
      EmitKeepsBuffers(l.(term := t.(buffer := t.buffer[n := k.ch], bufferSize := n + 1, bufferFlag := 0)), k.ch);
    }
  }

  // The same picture: page, cursor and scroll count.
  ghost predicate SamePicture(a: Local, b: Local) {
    && a.page == b.page && a.term.cursorX == b.term.cursorX && a.term.cursorY == b.term.cursorY
    && a.term.scrollIndex == b.term.scrollIndex
  }

  // What a key shows: a character that the line takes and Enter are shown as
  // output is, a backspace erases one cell if the line has a character, and
  // nothing else but Ctrl-L is seen.
  lemma KeyIsShown(l: Local, k: Key)
    requires l.Ok() && BuffersOk(l.term) && !(k.ctrl && k.ch == 108)
    ensures SamePicture(Press(l, k),
      if k.ch == 10 then Emit(l, 10)
      else if k.ch == 8 && l.term.bufferSize > 0 then Emit(l.(term := l.term.(bufferFlag := 0)), 8)
      else if k.ch in {8, 9} || l.term.bufferSize == 128 then l
      else Emit(l, k.ch))
  {
  }

  // Ctrl-L leaves white blanks everywhere and the cursor at the start.
  lemma ClearIsBlank(l: Local)
    requires l.Ok() && BuffersOk(l.term)
    ensures var r := Press(l, Key(108, true));
      && r.term.cursorX == r.term.cursorY == 0 && r.term.scrollIndex == l.term.scrollIndex && |r.page| == 4096
      && forall i :: 0 <= i < 4096 ==> r.page[i] == if i >= 4000 then l.page[i] else if i % 2 == 1 then 0x0F else 32
  {
    assert Press(l, Key(108, true)).page == ClearedPage(l.page);
    forall i | 0 <= i < 4096 ensures ClearedPage(l.page)[i] == ClearedByte(l.page, i) {}
  }

  // ----- What the line holds -----

  predicate Plain(text: seq<Byte>) { forall i :: 0 <= i < |text| ==> text[i] !in {8, 9, 10} }

  function Typing(text: seq<Byte>): (keys: seq<Key>)
    ensures |keys| == |text|
  {
    seq(|text|, i requires 0 <= i < |text| => Key(text[i], false))
  }

  // Typing a text puts its first 128 characters behind the line.
  lemma {:induction false} TypingAppends(text: seq<Byte>, stored: seq<Byte>)
    requires Plain(text)
    ensures EditAll(Editor([], stored), Typing(text)).line == if |text| <= 128 then text else text[..128]
    decreases |text|
  {
    if text != [] {
      var n := |text| - 1;
      TypingAppends(text[..n], stored);
      assert Typing(text)[..n] == Typing(text[..n]);
      assert text == text[..n] + [text[n]];
      if |text| > 128 { assert text[..n][..128] == text[..128]; }
    }
  }

  // What a reader gets: the text that was typed before Enter.
  lemma TypedLineIsStored(text: seq<Byte>, stored: seq<Byte>, ctrl: bool)
    requires Plain(text)
    ensures EditAll(Editor([], stored), Typing(text) + [Key(10, ctrl)])
      == Editor([], if |text| <= 128 then text else text[..128])
  {
    TypingAppends(text, stored);
    var keys := Typing(text) + [Key(10, ctrl)];
    assert keys[..|text|] == Typing(text);
  }

  // A backspace takes back the character before it, and Ctrl-L the whole line.
  lemma ErasingUndoes(e: Editor, k: Key, ctrl: bool)
    requires |e.line| < 128 && k.ch !in {8, 9, 10} && !(k.ctrl && k.ch == 108)
    ensures Edit(Edit(e, k), Key(8, ctrl)) == Editor(e.line, e.line)
    ensures Edit(e, Key(108, true)) == Editor([], [])
  {
    assert (e.line + [k.ch])[..|e.line|] == e.line;
  }

  // A tab adds four spaces, or as many as fit; a full line takes nothing.
  lemma LineIsLimited(e: Editor, k: Key)
    requires |e.line| <= 128
    ensures |e.line| <= 124 ==> Edit(e, Key(9, k.ctrl)).line == e.line + [32, 32, 32, 32]
    ensures |Edit(e, Key(9, k.ctrl)).line| == if |e.line| <= 124 then |e.line| + 4 else 128
    ensures |e.line| == 128 && k.ch !in {8, 10} && !(k.ctrl && k.ch == 108) ==> Edit(e, k) == e
  {
  }

  // The buffers that hold all this.
  lemma BuffersInCells(t: Term, e: Editor)
    requires Edits(t, e)
    ensures |t.buffer| == |t.storage| == 4096 && t.bufferSize == |e.line| <= 128
    ensures forall j :: 0 <= j < 4096 ==> t.buffer[j] == if j < |e.line| then e.line[j] else 0
    ensures forall j :: 0 <= j < 4096 ==> t.storage[j] == if j < |e.stored| then e.stored[j] else 0
  {
    forall j | 0 <= j < |e.line| ensures t.buffer[j] == e.line[j] { assert t.buffer[..|e.line|][j] == e.line[j]; }
    forall j | 0 <= j < |e.stored| ensures t.storage[j] == e.stored[j] { assert t.storage[..|e.stored|][j] == e.stored[j]; }
  }

  // Halting a process forgets the line and what a reader would get.
  lemma ClosingForgets(t: Term, e: Editor)
    requires Edits(t, e)
    ensures var r := ClosedTerminal(t);
      && Edits(r, Editor([], [])) && r.bufferFlag == 1
      && r == t.(buffer := r.buffer, storage := r.storage, bufferSize := 0, bufferFlag := 1)
  {
  }
}
