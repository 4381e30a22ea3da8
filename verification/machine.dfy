// The kernel's tables, the terminals and the video memory together: the
// system calls and interrupt handlers that touch more than one of them.
module Machine {
  import opened Types
  import opened ProcessModel
  import opened ProcessSafety
  import opened ProcessRuns
  import opened Paging
  import M = MachineModel
  import L = LineEditor
  import T = ProcessTable
  import V = Video
  import R = ProcessReads

  // Three terminals whose records and buffers do not overlap.
  ghost predicate TerminalsOk(termis: seq<V.Terminal>, fields: set<object>)
    reads termis
  {
    && |termis| == TOTAL_TERMINALS
    && (forall t :: 0 <= t < TOTAL_TERMINALS ==>
          termis[t].Ok() && termis[t] in fields && termis[t].buffer in fields && termis[t].storage in fields)
    && (forall t, u :: 0 <= t < TOTAL_TERMINALS && 0 <= u < TOTAL_TERMINALS && t != u ==>
          && termis[t] != termis[u]
          && termis[t].buffer != termis[u].buffer && termis[t].buffer != termis[u].storage
          && termis[t].storage != termis[u].storage)
  }

  // A terminal that nothing has happened to.
  ghost predicate Untouched(t: M.C.Term) {
    && t.cursorX == t.cursorY == t.scrollIndex == 0 && t.bufferFlag == 1 && t.enterFlag == 0
    && L.Edits(t, L.Editor([], []))
  }

  method NewTerminals() returns (termis: seq<V.Terminal>, ghost fields: set<object>)
    ensures TerminalsOk(termis, fields) && fresh(fields)
    ensures forall t :: 0 <= t < TOTAL_TERMINALS ==> Untouched(termis[t].Val())
  {
    var t0 := new V.Terminal();
    var t1 := new V.Terminal();
    var t2 := new V.Terminal();
    termis := [t0, t1, t2];
    fields := {t0, t0.buffer, t0.storage, t1, t1.buffer, t1.storage, t2, t2.buffer, t2.storage};
  }

  // A screen and a kernel that share no object, neither with the terminals.
  method NewParts(bbStart: int, ptFrame: int, vidmemFrame: int, ghost owned: set<object>) returns (s: V.Screen, k: T.Kernel)
    requires bbStart > 0 && 0 <= ptFrame && 0 <= vidmemFrame
    requires ptFrame + TASK_NUMBER <= vidmemFrame || vidmemFrame + TASK_NUMBER <= ptFrame
    ensures s.Ok() && k.Valid() && Blank(k.abs)
    ensures fresh(s) && fresh(s.memory) && fresh(k.Repr() + {k.tables.pd, k.tables.pt})
    ensures {s, s.memory} !! k.Repr() + {k.tables.pd, k.tables.pt}
    ensures {s, s.memory} + k.Repr() + {k.tables.pd, k.tables.pt} !! owned
  {
    hide T.Kernel.Valid, Blank;
    s := new V.Screen();
    k := new T.Kernel(bbStart, ptFrame, vidmemFrame);
  }

  class System {
    const kernel: T.Kernel
    const screen: V.Screen
    const termis: seq<V.Terminal>
    ghost const fields: set<object>   // the terminals and their buffers

    ghost predicate Apart()
    {
      && {this, screen, screen.memory} + fields !! kernel.Repr() + {kernel.tables.pd, kernel.tables.pt}
      && {this, screen, screen.memory} !! fields
    }

    ghost predicate Valid()
      reads this, kernel, kernel.Repr(), kernel.tables.pd, kernel.tables.pt, screen, termis
    {
      kernel.Valid() && screen.Ok() && TerminalsOk(termis, fields) && Apart()
    }

    ghost function Terms(): seq<M.C.Term>
      requires TerminalsOk(termis, fields)
      reads termis, fields
    {
      [termis[0].Val(), termis[1].Val(), termis[2].Val()]
    }

    ghost function Pages(): seq<seq<Byte>>
      requires screen.Ok()
      reads screen.memory
    {
      [screen.Page(0), screen.Page(1), screen.Page(2), screen.Page(3)]
    }

    ghost function View(): M.Machine
      requires TerminalsOk(termis, fields) && screen.Ok()
      reads kernel, screen.memory, termis, fields
    {
      M.Machine(kernel.abs, Pages(), Terms())
    }

    // The tables, terminals and video memory before the first shell.
    constructor (bbStart: int, ptFrame: int, vidmemFrame: int)
      requires bbStart > 0 && 0 <= ptFrame && 0 <= vidmemFrame
      requires ptFrame + TASK_NUMBER <= vidmemFrame || vidmemFrame + TASK_NUMBER <= ptFrame
      ensures Valid() && Blank(kernel.abs)
      ensures |termis| == 3 && forall t :: 0 <= t < 3 ==> Untouched(termis[t].Val())
    {
      var ts, owned := NewTerminals();
      var s, k := NewParts(bbStart, ptFrame, vidmemFrame, owned);
      kernel, screen, termis, fields := k, s, ts, owned;
      new;
      hide T.Kernel.Valid, Blank, TerminalsOk, Untouched;
    }

    // The display's cursor stands at the visible terminal's cursor.
    ghost predicate CursorShown()
      requires Valid()
      reads this, kernel, kernel.Repr(), kernel.tables.pd, kernel.tables.pt, screen, termis, fields
    {
      0 <= kernel.abs.visible < TOTAL_TERMINALS && screen.CursorAt(Terms()[kernel.abs.visible])
    }

    // Prints on a page with the cursor of a terminal.
    method Print(page: int, t: int, text: seq<Byte>, shown: bool)
      requires Valid() && 0 <= page < V.PAGES && 0 <= t < TOTAL_TERMINALS
      modifies screen.memory, screen, termis[t]
      ensures Valid() && kernel.abs == old(kernel.abs)
      ensures old(M.C.Local(Pages()[page], Terms()[t])).Ok()
      ensures var l := M.C.EmitAll(old(M.C.Local(Pages()[page], Terms()[t])), text);
        Pages() == old(Pages())[page := l.page] && Terms() == old(Terms())[t := l.term]
      ensures screen.Display() == if shown
        then M.C.Displayed(old(M.C.Local(Pages()[page], Terms()[t])), text, old(screen.Display()))
        else old(screen.Display())
    {
      hide T.Kernel.Valid, V.Screen.Page;
      screen.Write(page, termis[t], text, shown);
    }

    // write_terminal for the running process. noted is the visible terminal
    // that the call read when it started.
    method WriteTerminal(text: seq<Byte>, noted: int)
      requires Valid() && View().Inv()
      modifies screen.memory, screen, termis[kernel.currentTerminal]
      ensures Valid()
      ensures View() == M.Step(old(View()), M.Output(text))
      ensures screen.Display() == M.DisplayAfter(old(View()), text, noted, old(screen.Display()))
      ensures old(CursorShown()) ==> (CursorShown() <==> M.CursorStays(old(View()), text, noted))
    {
      ghost var m, shown := View(), CursorShown();
      Output(text, noted);
      hide *;
      if shown { WriteKeepsCursor(m, text, noted); }
    }

    method Output(text: seq<Byte>, noted: int)
      requires Valid() && View().Inv()
      modifies screen.memory, screen, termis[kernel.currentTerminal]
      ensures Valid() && View() == M.Step(old(View()), M.Output(text))
      ensures screen.Display() == M.DisplayAfter(old(View()), text, noted, old(screen.Display()))
      ensures old(CursorShown()) ==> old(screen.Display()) == M.C.CursorCell(old(View()).terms[old(View()).sys.visible])
    {
      hide T.Kernel.Valid, ProcessModel.Inv, V.Screen.Page, Apart;
      kernel.Registers();
      M.OutputFollowsRecord(View());
      var page := kernel.OutputPage();
      Print(page, kernel.currentTerminal, text, kernel.currentTerminal == noted);
    }

    // The display's cursor, by the two machine states around such a write.
    lemma WriteKeepsCursor(m: M.Machine, text: seq<Byte>, noted: int)
      requires Valid() && m.Inv() && View() == M.Step(m, M.Output(text))
      requires screen.Display() == M.DisplayAfter(m, text, noted, M.C.CursorCell(m.terms[m.sys.visible]))
      ensures CursorShown() <==> M.CursorStays(m, text, noted)
    {
      hide T.Kernel.Valid, ProcessModel.Inv, V.Screen.Page, Apart, TerminalsOk, M.DisplayAfter;
    }

    // kb_handler's way to keyboard_fill_buffer.
    method KeyPressed(key: L.Key)
      requires Valid() && View().Inv()
      modifies screen.memory, screen, fields
      ensures Valid() && (old(CursorShown()) ==> CursorShown())
      ensures View() == M.Step(old(View()), M.Typed(key))
    {
      hide T.Kernel.Valid, ProcessModel.Inv, V.Screen.Page, Apart, L.Press;
      kernel.Registers();
      Fill(kernel.terminalNumber, key);
    }

    // keyboard_fill_buffer for terminal t, which is on the screen.
    method Fill(t: int, key: L.Key)
      requires Valid() && 0 <= t < TOTAL_TERMINALS
      requires M.C.Local(Pages()[0], Terms()[t]).Ok() && L.BuffersOk(Terms()[t])
      modifies screen.memory, screen, fields
      ensures Valid() && kernel.abs == old(kernel.abs)
      ensures old(screen.CursorAt(Terms()[t])) ==> screen.CursorAt(Terms()[t])
      ensures var l := L.Press(old(M.C.Local(Pages()[0], Terms()[t])), key);
        Pages() == old(Pages())[0 := l.page] && Terms() == old(Terms())[t := l.term]
    {
      hide T.Kernel.Valid, V.Screen.Page, L.Press;
      screen.FillBuffer(termis[t], key);
    }

    method CloseTerminal(t: int)
      requires Valid() && 0 <= t < TOTAL_TERMINALS
      modifies fields
      ensures Valid() && kernel.abs == old(kernel.abs)
      ensures Pages() == old(Pages()) && |old(Terms()[t].buffer)| == M.C.MAX_SIZE
      ensures Terms() == old(Terms())[t := L.ClosedTerminal(old(Terms()[t]))]
    {
      hide T.Kernel.Valid, V.Screen.Page;
      termis[t].Close();
    }

    method Halt(status: int) returns (o: Outcome)
      requires Valid() && View().Inv()
      modifies kernel.Repr(), fields
      ensures Valid()
      ensures (View(), o) == M.After(old(View()), HaltCall(status)) && !o.Returned?
    {
      hide T.Kernel.Valid, V.Screen.Page, ProcessModel.Halt;
      kernel.Registers();
      M.HaltStep(View(), status);
      hide M.After, M.Machine.Shape, ProcessModel.Inv, Apart, Pages, Terms, TerminalsOk;
      CloseTerminal(kernel.currentTerminal);
      o := HaltProcess(status);
    }

    method HaltProcess(status: int) returns (o: Outcome)
      requires Valid() && kernel.abs.Active(kernel.abs.current) && 1 <= kernel.abs.Top(kernel.abs.current).pid <= MAX_PCB_NUM
      modifies kernel.Repr()
      ensures Valid() && Pages() == old(Pages()) && Terms() == old(Terms())
      ensures (kernel.abs, o) == ProcessModel.Halt(old(kernel.abs), status)
    {
      hide T.Kernel.Valid, V.Screen.Page, ProcessModel.Halt;
      o := kernel.Halt(status);
    }

    method TimerInterrupt(regs: Regs) returns (o: Outcome)
      requires Valid() && View().Inv() && regs.Nonzero()
      modifies kernel.Repr()
      ensures Valid()
      ensures (View(), o) == M.After(old(View()), TimerTick(regs)) && o.Resumed?
    {
      hide T.Kernel.Valid, V.Screen.Page;
      TickKeeps(kernel.abs, regs);
      o := kernel.ScheduleNextProcess(-1, regs);
    }

    method Execute(known: bool, regs: Regs) returns (o: Outcome)
      requires Valid() && View().Inv() && regs.Nonzero()
      modifies kernel.Repr()
      ensures Valid()
      ensures (View(), o) == M.After(old(View()), ExecuteCall(known, regs))
    {
      hide T.Kernel.Valid, V.Screen.Page;
      o := kernel.Execute(known, regs);
    }

    method Open(found: Option<Dentry>) returns (r: int)
      requires Valid() && View().Inv() && OpenCall(found).Ok()
      modifies kernel, kernel.blocks
      ensures Valid()
      ensures (View(), Returned(r)) == M.After(old(View()), OpenCall(found))
    {
      hide T.Kernel.Valid, V.Screen.Page;
      r := kernel.Open(found);
    }

    method Close(fd: int) returns (r: int)
      requires Valid() && View().Inv()
      modifies kernel, kernel.blocks
      ensures Valid()
      ensures (View(), Returned(r)) == M.After(old(View()), CloseCall(fd))
    {
      hide T.Kernel.Valid, V.Screen.Page;
      r := kernel.Close(fd);
    }

    // buf is memory of the process, apart from everything in this model; base
    // is its address.
    method Read(img: seq<Byte>, fd: int, buf: array<Byte>, nbytes: int, base: nat) returns (r: int)
      requires Valid() && View().Inv() && R.CanRead(kernel.abs, img, fd, nbytes % U32, buf.Length)
      requires buf !in kernel.Repr() + {kernel.tables.pd, kernel.tables.pt} + fields + {screen.memory}
      modifies kernel, kernel.blocks, buf
      ensures Valid()
      ensures var reply := R.CallReply(old(kernel.abs), img, fd, nbytes % U32, buf.Length);
        && M.Process(ReadCall(fd, nbytes % U32, reply)).Ok()
        && (View(), Returned(r)) == M.After(old(View()), ReadCall(fd, nbytes % U32, reply))
        && buf[..] == reply.bytes + old(buf[..])[|reply.bytes|..]
    {
      hide T.Kernel.Valid, V.Screen.Page, R.CallReply, R.ReadStep;
      R.ReadIsEvent(kernel.abs, img, fd, nbytes % U32, buf.Length);
      r := R.Read(kernel, img, fd, buf, nbytes, base);
    }

    // Alt+F(t+1) in kb_handler: remap the processes, save and load the screen,
    // move the display's cursor, and launch the terminal if it is new.
    method SwitchTerminal(t: int, regs: Regs) returns (o: Outcome)
      requires Valid() && View().Inv() && SwitchKey(t, regs).Ok()
      modifies kernel.Repr(), screen.memory, screen
      ensures Valid() && (t != old(kernel.abs.visible) || old(CursorShown()) ==> CursorShown())
      ensures (View(), o) == M.After(old(View()), SwitchKey(t, regs)) && o != Returned(-1)
    {
      hide T.Kernel.Valid, V.Screen.Page, ProcessModel.Switch;
      kernel.Registers();
      M.SwitchStep(View(), t, regs);
      hide M.After, M.Machine.Shape, ProcessModel.Inv, Apart, Pages, Terms, TerminalsOk;
      var previous := kernel.terminalNumber;
      if previous != t { ShowPage(previous, t); }
      o := SwitchProcesses(t, regs);
    }

    method SwitchProcesses(t: int, regs: Regs) returns (o: Outcome)
      requires Valid() && 0 <= t < TOTAL_TERMINALS
      modifies kernel.Repr()
      ensures Valid() && Pages() == old(Pages()) && Terms() == old(Terms())
      ensures (kernel.abs, o) == ProcessModel.Switch(old(kernel.abs), t, regs)
    {
      hide T.Kernel.Valid, V.Screen.Page, ProcessModel.Switch;
      o := kernel.Switch(t, regs);
    }

    method ShowPage(previous: int, t: int)
      requires Valid() && 0 <= previous < TOTAL_TERMINALS && 0 <= t < TOTAL_TERMINALS && previous != t
      modifies screen.memory, screen
      ensures Valid() && kernel.abs == old(kernel.abs) && Terms() == old(Terms())
      ensures Pages() == M.SwitchedPages(old(Pages()), previous, t)
      ensures screen.CursorAt(Terms()[t])
    {
      hide T.Kernel.Valid, V.Screen.Page;
      screen.SwitchPages(previous, t, VIDEO);
      screen.SetCursor(termis[t].cursorX, termis[t].cursorY);
    }

    // From the freshly built tables to the first shell on a clean screen.
    method Boot() returns (o: Outcome)
      requires Valid() && Blank(kernel.abs)
      modifies kernel.Repr(), screen.memory, screen, fields
      ensures Valid() && View().Inv() && CursorShown() && Booted(kernel.abs)
      ensures Pages() == old(Pages())[0 := L.ClearedPage(old(Pages()[0]))]
      ensures Terms() == old(Terms())[0 := old(Terms()[0]).(cursorX := 0, cursorY := 0)]
    {
      hide T.Kernel.Valid, ProcessModel.Inv, ProcessModel.Execute, M.Machine.Inv, Pages, Terms, L.ClearedPage;
      BootIsSafe(kernel.abs);
      CleanFirst();
      o := StartShell();
      ViewOfBooted();
    }

    // The first terminal is on the screen.
    method CleanFirst()
      requires Valid()
      modifies screen.memory, screen, fields
      ensures Valid() && kernel.abs == old(kernel.abs)
      ensures Pages() == old(Pages())[0 := L.ClearedPage(old(Pages()[0]))]
      ensures Terms() == old(Terms())[0 := old(Terms()[0]).(cursorX := 0, cursorY := 0)]
      ensures screen.CursorAt(Terms()[0])
    {
      hide T.Kernel.Valid, V.Screen.Page;
      screen.CleanScreen(termis[0]);
    }

    method StartShell() returns (o: Outcome)
      requires Valid()
      modifies kernel.Repr()
      ensures Valid() && Pages() == old(Pages()) && Terms() == old(Terms())
      ensures (kernel.abs, o) == ProcessModel.Execute(old(kernel.abs), true, Regs(0, 0))
    {
      hide T.Kernel.Valid, V.Screen.Page, ProcessModel.Execute;
      o := kernel.Execute(true, Regs(0, 0));
    }

    lemma ViewOfBooted()
      requires Valid() && Booted(kernel.abs)
      ensures View().Inv()
    {
      hide T.Kernel.Valid, V.Screen.Page, ProcessModel.System.Distinct, FramesOk, ProcessModel.Mapped, Loaded, Resumable, Apart;
    }
  }
}
