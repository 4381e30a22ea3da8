// The terminals and the video memory as kb.c updates them: four pages (the
// screen and one backing page for each terminal), the terminal records, and
// the cursor registers of the display controller.
//
// kb.c has each console routine twice, once for the scheduled terminal through
// the user video mapping and once for the visible terminal through VIDEO. The
// two copies differ only in the page and the terminal they name, so here they
// are parameters.
module Video {
  import opened Types
  import opened Console
  import opened LineEditor
  import opened MemoryCopy

  const PAGES := 4

  class Terminal {
    var cursorX: int
    var cursorY: int
    var scrollIndex: int
    var bufferFlag: int
    var enterFlag: int
    var bufferSize: int
    const buffer: array<Byte>
    const storage: array<Byte>

    // init_termis.
    constructor ()
      ensures Ok() && fresh(buffer) && fresh(storage)
      ensures Val() == Term(0, 0, 0, 1, 0, 0, Nuls(MAX_SIZE), Nuls(MAX_SIZE))
    {
      cursorX, cursorY, scrollIndex, bufferFlag, enterFlag, bufferSize := 0, 0, 0, 1, 0, 0;
      buffer := new Byte[MAX_SIZE](_ => NUL);
      storage := new Byte[MAX_SIZE](_ => NUL);
    }

    ghost predicate Ok()
      reads this
    {
      && buffer.Length == MAX_SIZE && storage.Length == MAX_SIZE && buffer != storage
      && 0 <= cursorX < WIDTH && 0 <= cursorY < HEIGHT
      && 0 <= scrollIndex < 256 && 0 <= bufferSize <= MAX_BUFFER_SIZE
    }

    ghost function Val(): Term
      reads this, buffer, storage
    {
      Term(cursorX, cursorY, scrollIndex, bufferFlag, enterFlag, bufferSize, buffer[..], storage[..])
    }

    // keyboard_copy_buffer.
    method CopyBuffer()
      requires Ok()
      modifies storage
      ensures Val() == CopiedBuffer(old(Val()))
    {
      for i := 0 to MAX_BUFFER_SIZE
        invariant forall k :: 0 <= k < i ==> storage[k] == buffer[k]
        invariant forall k :: i <= k < MAX_SIZE ==> storage[k] == old(storage[k])
      {
        storage[i] := buffer[i];
      }
      assert storage[..] == buffer[..][..MAX_BUFFER_SIZE] + old(storage[..])[MAX_BUFFER_SIZE..];
    }

    // keyboard_buffer_clean and terminal_clean_buffer.
    method CleanBuffer()
      requires Ok()
      modifies this, buffer
      ensures Ok() && Val() == CleanedBuffer(old(Val()))
    {
      for i := 0 to MAX_BUFFER_SIZE
        modifies buffer
        invariant buffer[..] == Nuls(i) + old(buffer[..])[i..]
      {
        buffer[i] := NUL;
        assert Nuls(i) + [NUL] == Nuls(i + 1);
      }
      bufferSize := 0;
      bufferFlag := 1;
    }

    // close_terminal.
    method Close()
      requires Ok()
      modifies this, buffer, storage
      ensures Ok() && Val() == ClosedTerminal(old(Val()))
    {
      for i := 0 to MAX_SIZE
        modifies storage
        invariant storage[..] == Nuls(i) + old(storage[..])[i..]
      {
        storage[i] := NUL;
        assert Nuls(i) + [NUL] == Nuls(i + 1);
      }
      CleanBuffer();
    }
  }

  class Screen {
    const memory: array<Byte>
    var crtcHigh: int
    var crtcLow: int

    constructor ()
      ensures Ok() && fresh(memory) && crtcHigh == crtcLow == 0
    {
      memory := new Byte[PAGES * FOUR_KB](_ => NUL);
      crtcHigh, crtcLow := 0, 0;
    }

    predicate Ok() {
      memory.Length == PAGES * FOUR_KB
    }

    ghost function Page(p: int): (r: seq<Byte>)
      requires Ok() && 0 <= p < PAGES
      reads memory
      ensures |r| == FOUR_KB
    {
      memory[p * FOUR_KB..(p + 1) * FOUR_KB]
    }

    ghost function View(p: int, t: Terminal): Local
      requires Ok() && 0 <= p < PAGES
      reads memory, t, t.buffer, t.storage
    {
      Local(Page(p), t.Val())
    }

    // The cell of the display's cursor.
    function Display(): int
      reads `crtcHigh, `crtcLow
    {
      256 * crtcHigh + crtcLow
    }

    // The display's cursor stands where this terminal's cursor is.
    ghost predicate CursorAt(t: Term)
      reads `crtcHigh, `crtcLow
    {
      Display() == CursorCell(t)
    }

    method PutC(p: int, x: int, y: int, ch: Byte)
      requires Ok() && 0 <= p < PAGES && 0 <= x < WIDTH && 0 <= y < HEIGHT
      modifies memory
      ensures Page(p) == PutAt(old(Page(p)), x, y, ch)
      ensures forall q :: 0 <= q < PAGES && q != p ==> Page(q) == old(Page(q))
    {
      var offset := (y * WIDTH + x) * 2;
      memory[p * FOUR_KB + offset] := ch;
      memory[p * FOUR_KB + offset + 1] := WHITE;
    }

    method GetC(p: int, x: int, y: int) returns (ch: Byte)
      requires Ok() && 0 <= p < PAGES && 0 <= x < WIDTH && 0 <= y < HEIGHT
      ensures ch == Glyph(Page(p), y * WIDTH + x)
    {
      ch := memory[p * FOUR_KB + (y * WIDTH + x) * 2];
    }

    // The first cells of a page have been scrolled; the rest is as before.
    ghost predicate ScrolledUpTo(now: seq<Byte>, page: seq<Byte>, n: int, cells: int)
      requires |page| == FOUR_KB && 0 <= n <= HEIGHT
    {
      && |now| == FOUR_KB
      && forall i :: 0 <= i < FOUR_KB ==> now[i] == if i < 2 * cells && i < 2 * CELLS then ScrolledByte(page, n, i) else page[i]
    }

    lemma ScrollCell(now: seq<Byte>, page: seq<Byte>, n: int, x: int, y: int, ch: Byte)
      requires |page| == FOUR_KB && 0 <= n <= HEIGHT && 0 <= x < WIDTH && 0 <= y < HEIGHT
      requires ScrolledUpTo(now, page, n, y * WIDTH + x)
      requires ch == if y + n < HEIGHT then Glyph(now, (y + n) * WIDTH + x) else NUL
      ensures ScrolledUpTo(PutAt(now, x, y, ch), page, n, y * WIDTH + x + 1)
    {
    }

    // The rows move one after the other, each into the place of an earlier
    // one, and yet every row arrives as it was at the start.
    method ScrollUp(p: int, t: Terminal, n: int)
      requires Ok() && 0 <= p < PAGES && 0 <= n <= HEIGHT
      modifies memory, t`scrollIndex
      ensures Page(p) == Scrolled(old(Page(p)), n)
      ensures forall q :: 0 <= q < PAGES && q != p ==> Page(q) == old(Page(q))
      ensures t.scrollIndex == (old(t.scrollIndex) + n) % 256
    {
      ghost var page := Page(p);
      t.scrollIndex := (t.scrollIndex + n) % 256;
      for y := 0 to HEIGHT - n
        modifies memory
        invariant ScrolledUpTo(Page(p), page, n, y * WIDTH)
        invariant forall q :: 0 <= q < PAGES && q != p ==> Page(q) == old(Page(q))
      {
        for x := 0 to WIDTH
          modifies memory
          invariant ScrolledUpTo(Page(p), page, n, y * WIDTH + x)
          invariant forall q :: 0 <= q < PAGES && q != p ==> Page(q) == old(Page(q))
        {
          var ch := GetC(p, x, y + n);
          ScrollCell(Page(p), page, n, x, y, ch);
          PutC(p, x, y, ch);
        }
      }
      for y := HEIGHT - n to HEIGHT
        modifies memory
        invariant ScrolledUpTo(Page(p), page, n, y * WIDTH)
        invariant forall q :: 0 <= q < PAGES && q != p ==> Page(q) == old(Page(q))
      {
        for x := 0 to WIDTH
          modifies memory
          invariant ScrolledUpTo(Page(p), page, n, y * WIDTH + x)
          invariant forall q :: 0 <= q < PAGES && q != p ==> Page(q) == old(Page(q))
        {
          ScrollCell(Page(p), page, n, x, y, NUL);
          PutC(p, x, y, NUL);
        }
      }
    }

    // terminal_set_cursor and keyboard_set_cursor.
    method SetCursor(x: int, y: int)
      requires 0 <= x < WIDTH && 0 <= y < HEIGHT
      modifies `crtcHigh, `crtcLow
      ensures Display() == y * WIDTH + x
      ensures crtcHigh == (80 * y + x) / 256 && crtcLow == (80 * y + x) % 256
    {
      var position := y * WIDTH + x;
      crtcHigh := position / 256 % 256;
      crtcLow := position % 256;
    }

    method UpdateCursor(p: int, t: Terminal)
      requires Ok() && t.Ok() && 0 <= p < PAGES && memory != t.buffer && memory != t.storage
      modifies memory, t
      ensures t.Ok() && View(p, t) == Advance(old(View(p, t)))
      ensures forall q :: 0 <= q < PAGES && q != p ==> Page(q) == old(Page(q))
    {
      if t.cursorX == WIDTH - 1 && t.cursorY == HEIGHT - 1 {
        ScrollUp(p, t, 1);
        t.cursorX := 0;
        t.cursorY := HEIGHT - 1;
      } else if t.cursorX == WIDTH - 1 {
        t.cursorX := 0;
        t.cursorY := t.cursorY + 1;
      } else {
        t.cursorX := t.cursorX + 1;
      }
    }

    method RevertCursor(t: Terminal)
      requires t.Ok()
      modifies t
      ensures t.Ok() && t.Val() == Reverted(old(t.Val()))
    {
      if t.cursorX == 0 && t.cursorY == 0 {
      } else if t.cursorX == 0 {
        t.cursorX := WIDTH - 1;
        t.cursorY := t.cursorY - 1;
      } else {
        t.cursorX := t.cursorX - 1;
      }
    }

    // One character, at the cursor. shown: the display's cursor follows.
    method PutHereAndAdvance(p: int, t: Terminal, ch: Byte, shown: bool)
      requires Ok() && t.Ok() && 0 <= p < PAGES && memory != t.buffer && memory != t.storage
      modifies memory, t, `crtcHigh, `crtcLow
      ensures t.Ok() && View(p, t) == Advance(PutHere(old(View(p, t)), ch))
      ensures forall q :: 0 <= q < PAGES && q != p ==> Page(q) == old(Page(q))
      ensures Display() == if shown then CursorCell(t.Val()) else old(Display())
    {
      PutC(p, t.cursorX, t.cursorY, ch);
      UpdateCursor(p, t);
      if shown { SetCursor(t.cursorX, t.cursorY); }
    }

    method EmitChar(p: int, t: Terminal, ch: Byte, shown: bool)
      requires Ok() && t.Ok() && 0 <= p < PAGES && memory != t.buffer && memory != t.storage
      modifies memory, t, `crtcHigh, `crtcLow
      ensures t.Ok() && View(p, t) == Emit(old(View(p, t)), ch)
      ensures forall q :: 0 <= q < PAGES && q != p ==> Page(q) == old(Page(q))
      ensures Display() ==
        if !shown || (ch == BACKSPACE && !CanErase(old(t.Val()))) then old(Display()) else CursorCell(t.Val())
    {
      if ch == BACKSPACE {
        if !(t.cursorX == 0 && t.cursorY == 0) && t.bufferFlag == 0 {
          RevertCursor(t);
          if shown { SetCursor(t.cursorX, t.cursorY); }
          PutC(p, t.cursorX, t.cursorY, NUL);
        }
      } else if ch == NEWLINE {
        t.cursorX := WIDTH - 1;
        UpdateCursor(p, t);
        if shown { SetCursor(t.cursorX, t.cursorY); }
      } else if ch == TAB {
        EmitTab(p, t, shown);
      } else {
        PutHereAndAdvance(p, t, ch, shown);
      }
    }

    method EmitTab(p: int, t: Terminal, shown: bool)
      requires Ok() && t.Ok() && 0 <= p < PAGES && memory != t.buffer && memory != t.storage
      modifies memory, t, `crtcHigh, `crtcLow
      ensures t.Ok() && View(p, t) == Spaces(old(View(p, t)), TAB_SPACE_NUM)
      ensures forall q :: 0 <= q < PAGES && q != p ==> Page(q) == old(Page(q))
      ensures Display() == if shown then CursorCell(t.Val()) else old(Display())
    {
      for j := 0 to TAB_SPACE_NUM
        invariant t.Ok() && View(p, t) == Spaces(old(View(p, t)), j)
        invariant forall q :: 0 <= q < PAGES && q != p ==> Page(q) == old(Page(q))
        invariant Display() == if shown && j > 0 then CursorCell(t.Val()) else old(Display())
      {
        PutHereAndAdvance(p, t, SPACE, shown);
      }
    }

    // write_terminal and write_terminal_from_keyboard.
    method Write(p: int, t: Terminal, text: seq<Byte>, shown: bool)
      requires Ok() && t.Ok() && 0 <= p < PAGES && memory != t.buffer && memory != t.storage
      modifies memory, t, `crtcHigh, `crtcLow
      ensures t.Ok() && View(p, t) == EmitAll(old(View(p, t)), text)
      ensures forall q :: 0 <= q < PAGES && q != p ==> Page(q) == old(Page(q))
      ensures Display() == if shown then Displayed(old(View(p, t)), text, old(Display())) else old(Display())
    {
      for i := 0 to |text|
        invariant t.Ok() && View(p, t) == EmitAll(old(View(p, t)), text[..i])
        invariant forall q :: 0 <= q < PAGES && q != p ==> Page(q) == old(Page(q))
        invariant Display() == if shown then Displayed(old(View(p, t)), text[..i], old(Display())) else old(Display())
      {
        EmitChar(p, t, text[i], shown);
        assert text[..i + 1][..i] == text[..i];
      }
      assert text[..|text|] == text;
    }

    // ----- The keyboard: everything here is on the screen, page 0 -----

    ghost predicate ClearedUpTo(now: seq<Byte>, page: seq<Byte>, cells: int)
      requires |page| == FOUR_KB
    {
      && |now| == FOUR_KB
      && forall i :: 0 <= i < FOUR_KB ==> now[i] == if i < 2 * cells && i < 2 * CELLS then ClearedByte(page, i) else page[i]
    }

    method CleanScreen(t: Terminal)
      requires Ok() && t.Ok() && memory != t.buffer && memory != t.storage
      modifies memory, t, `crtcHigh, `crtcLow
      ensures t.Ok() && View(0, t) == ClearedScreen(old(View(0, t)))
      ensures forall q :: 1 <= q < PAGES ==> Page(q) == old(Page(q))
      ensures CursorAt(t.Val())
    {
      ghost var page := Page(0);
      for y := 0 to HEIGHT
        modifies memory
        invariant ClearedUpTo(Page(0), page, y * WIDTH)
        invariant forall q :: 1 <= q < PAGES ==> Page(q) == old(Page(q))
      {
        for x := 0 to WIDTH
          modifies memory
          invariant ClearedUpTo(Page(0), page, y * WIDTH + x)
          invariant forall q :: 1 <= q < PAGES ==> Page(q) == old(Page(q))
        {
          PutC(0, x, y, SPACE);
        }
      }
      assert Page(0) == ClearedPage(page);
      t.cursorX := 0;
      t.cursorY := 0;
      SetCursor(t.cursorX, t.cursorY);
    }

    // The echo of one key and the copy of the edit buffer.
    method Echo(t: Terminal, ch: Byte)
      requires Ok() && t.Ok() && memory != t.buffer && memory != t.storage
      modifies memory, t, t.storage, `crtcHigh, `crtcLow
      ensures t.Ok() && View(0, t) == Echoed(old(View(0, t)), ch)
      ensures forall q :: 1 <= q < PAGES ==> Page(q) == old(Page(q))
      ensures old(CursorAt(t.Val())) ==> CursorAt(t.Val())
    {
      EmitChar(0, t, ch, true);
      label shown:
      t.CopyBuffer();
      assert Page(0) == old@shown(Page(0));
    }

    // The branches of keyboard_fill_buffer for backspace, enter and Ctrl-L.
    method Erase(t: Terminal, ctrl: bool)
      requires Ok() && t.Ok() && memory != t.buffer && memory != t.storage
      modifies memory, t, t.buffer, t.storage, `crtcHigh, `crtcLow
      ensures t.Ok() && View(0, t) == Press(old(View(0, t)), Key(BACKSPACE, ctrl))
      ensures forall q :: 1 <= q < PAGES ==> Page(q) == old(Page(q))
      ensures old(CursorAt(t.Val())) ==> CursorAt(t.Val())
    {
      if t.bufferSize == 0 {
        t.CopyBuffer();
        t.bufferFlag := 1;
      } else {
        t.buffer[t.bufferSize - 1] := NUL;
        t.bufferSize := t.bufferSize - 1;
        t.bufferFlag := 0;
        assert t.Val() == old(t.Val()).(buffer := old(t.buffer[..])[t.bufferSize := NUL], bufferSize := t.bufferSize, bufferFlag := 0);
        Echo(t, BACKSPACE);
      }
    }

    method NewLine(t: Terminal, ctrl: bool)
      requires Ok() && t.Ok() && memory != t.buffer && memory != t.storage
      modifies memory, t, t.buffer, t.storage, `crtcHigh, `crtcLow
      ensures t.Ok() && View(0, t) == Press(old(View(0, t)), Key(NEWLINE, ctrl))
      ensures forall q :: 1 <= q < PAGES ==> Page(q) == old(Page(q))
      ensures old(CursorAt(t.Val())) ==> CursorAt(t.Val())
    {
      t.CopyBuffer();
      t.CleanBuffer();
      EmitChar(0, t, NEWLINE, true);
      t.enterFlag := 1;
    }

    method ClearKey(t: Terminal)
      requires Ok() && t.Ok() && memory != t.buffer && memory != t.storage
      modifies memory, t, t.buffer, t.storage, `crtcHigh, `crtcLow
      ensures t.Ok() && View(0, t) == Press(old(View(0, t)), Key(LETTER_L, true))
      ensures forall q :: 1 <= q < PAGES ==> Page(q) == old(Page(q))
      ensures old(CursorAt(t.Val())) ==> CursorAt(t.Val())
    {
      t.CleanBuffer();
      CleanScreen(t);
      label cleared:
      t.CopyBuffer();
      assert Page(0) == old@cleared(Page(0));
    }

    method Insert(t: Terminal, ch: Byte)
      requires Ok() && t.Ok() && t.bufferSize < MAX_BUFFER_SIZE && memory != t.buffer && memory != t.storage
      modifies memory, t, t.buffer, t.storage, `crtcHigh, `crtcLow
      ensures var u := old(t.Val());
        t.Ok() && View(0, t) == Echoed(Local(old(Page(0)), u.(buffer := u.buffer[u.bufferSize := ch],
                                       bufferSize := u.bufferSize + 1, bufferFlag := 0)), ch)
      ensures forall q :: 1 <= q < PAGES ==> Page(q) == old(Page(q))
      ensures old(CursorAt(t.Val())) ==> CursorAt(t.Val())
    {
      t.buffer[t.bufferSize] := ch;
      t.bufferSize := t.bufferSize + 1;
      t.bufferFlag := 0;
      Echo(t, ch);
    }

    // keyboard_fill_buffer, for the visible terminal.
    method FillBuffer(t: Terminal, k: Key)
      requires Ok() && t.Ok() && memory != t.buffer && memory != t.storage
      modifies memory, t, t.buffer, t.storage, `crtcHigh, `crtcLow
      ensures t.Ok() && View(0, t) == Press(old(View(0, t)), k)
      ensures forall q :: 1 <= q < PAGES ==> Page(q) == old(Page(q))
      ensures old(CursorAt(t.Val())) ==> CursorAt(t.Val())
    {
      hide Emit, Echoed, ClearedScreen, CleanedBuffer, CopiedBuffer;
      if k.ch == BACKSPACE { Erase(t, k.ctrl); return; }
      if k.ch == NEWLINE { NewLine(t, k.ctrl); return; }
      if k.ctrl {
        if k.ch == LETTER_L { ClearKey(t); return; }
      }
      if k.ch == TAB { FillTab(t); return; }
      if t.bufferSize < MAX_BUFFER_SIZE { Insert(t, k.ch); }
    }

    method FillTab(t: Terminal)
      requires Ok() && t.Ok() && memory != t.buffer && memory != t.storage
      modifies t, t.buffer, t.storage
      ensures t.Ok()
      ensures var u := old(t.Val());
        var room := MAX_BUFFER_SIZE - u.bufferSize;
        t.Val() == AppendSpaces(u.(bufferFlag := 0), if room < TAB_SPACE_NUM then room else TAB_SPACE_NUM)
    {
      ghost var u := t.Val().(bufferFlag := 0);
      t.bufferFlag := 0;
      var length := if MAX_BUFFER_SIZE - t.bufferSize < TAB_SPACE_NUM then MAX_BUFFER_SIZE - t.bufferSize else TAB_SPACE_NUM;
      for i := 0 to length
        invariant t.Ok() && u.bufferSize + length <= MAX_BUFFER_SIZE && BuffersOk(u)
        invariant t.Val() == AppendSpaces(u, i)
      {
        t.buffer[t.bufferSize] := SPACE;
        t.bufferSize := t.bufferSize + 1;
        t.CopyBuffer();
      }
    }

    // ----- Terminal switch -----

    // The two copies of a terminal switch: the screen is saved in the backing
    // page of the terminal that leaves it, and replaced by the backing page of
    // the terminal that comes to it. base is the address of the first page.
    method SwitchPages(previous: int, next: int, base: nat)
      requires Ok() && 0 <= previous < PAGES - 1 && 0 <= next < PAGES - 1 && previous != next
      modifies memory
      ensures Page(0) == old(Page(next + 1))
      ensures Page(previous + 1) == old(Page(0))
      ensures forall q :: 1 <= q < PAGES && q != previous + 1 ==> Page(q) == old(Page(q))
    {
      CopyPage(previous + 1, 0, base);
      CopyPage(0, next + 1, base);
    }

    method CopyPage(to: int, from: int, base: nat)
      requires Ok() && 0 <= to < PAGES && 0 <= from < PAGES && to != from
      modifies memory
      ensures Page(to) == old(Page(from))
      ensures forall q :: 0 <= q < PAGES && q != to ==> Page(q) == old(Page(q))
    {
      MemCpy(memory, to * FOUR_KB, memory, from * FOUR_KB, FOUR_KB, base);
      forall q | 0 <= q < PAGES ensures Page(q) == if q == to then old(Page(from)) else old(Page(q)) {
        SplicedPage(old(memory[..]), to, old(Page(from)), q);
      }
    }
  }

  lemma SplicedPage(m: seq<Byte>, p: int, page: seq<Byte>, q: int)
    requires |m| == PAGES * FOUR_KB && |page| == FOUR_KB && 0 <= p < PAGES && 0 <= q < PAGES
    ensures Spliced(m, p * FOUR_KB, page)[q * FOUR_KB..(q + 1) * FOUR_KB]
      == if q == p then page else m[q * FOUR_KB..(q + 1) * FOUR_KB]
  {
  }
}
