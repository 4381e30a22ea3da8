// The whole machine as values: processes, video pages and terminals in one
// transition system, and the claim that one screen with three backing pages
// behaves like three independent terminals.
module MachineModel {
  import opened Types
  import opened ProcessModel
  import opened ProcessSafety
  import opened ProcessRuns
  import opened ProcessFairness
  import C = Console
  import L = LineEditor

  datatype Machine = Machine(
    sys: System,
    pages: seq<seq<Byte>>,    // page 0 is the screen, page t + 1 backs terminal t
    terms: seq<C.Term>)
  {
    ghost predicate Shape() {
      && sys.Shape()
      && |pages| == 1 + TOTAL_TERMINALS && |terms| == TOTAL_TERMINALS
      && (forall p :: 0 <= p < |pages| ==> |pages[p]| == FOUR_KB)
      && (forall t :: 0 <= t < |terms| ==>
            && 0 <= terms[t].cursorX < C.WIDTH && 0 <= terms[t].cursorY < C.HEIGHT
            && 0 <= terms[t].scrollIndex < 256
            && L.BuffersOk(terms[t]))
    }

    // Where the screen of terminal t is kept at the moment.
    function PageOf(t: int): int {
      if t == sys.visible then 0 else t + 1
    }

    // What the user of terminal t sees, or would see after switching to it.
    ghost function Logical(t: int): C.Local
      requires Shape() && 0 <= t < TOTAL_TERMINALS
    {
      C.Local(pages[PageOf(t)], terms[t])
    }

    // The page that user video page 0 of the running process is mapped to.
    ghost function OutputPage(): int
      requires sys.Shape() && 0 <= sys.cr3 < TASK_NUMBER
    {
      sys.page0[sys.cr3] - VIDEO_FRAME
    }

    ghost predicate Inv() {
      Shape() && ProcessModel.Inv(sys)
    }
  }

  // A process writes through its video mapping, a key is echoed on the
  // screen, or something happens to the processes.
  datatype Input =
    | Output(text: seq<Byte>)
    | Typed(key: L.Key)
    | Process(event: Event)
  {
    // Reading the keyboard, descriptor 0, is not part of this model.
    predicate Ok() { Process? ==> event.Ok() && (event.ReadCall? ==> event.fd != 0) }
  }

  // The page the running process writes to belongs to the terminal that was
  // recorded for it when it was created.
  lemma OutputFollowsRecord(m: Machine)
    requires m.Inv()
    ensures 0 <= m.sys.cr3 < TASK_NUMBER && 0 <= m.OutputPage() <= TOTAL_TERMINALS
    ensures var t := m.sys.Top(m.sys.current).terminal;
      0 <= t < TOTAL_TERMINALS && m.OutputPage() == m.PageOf(t)
  {
    assert m.sys.At(m.sys.current, |m.sys.stacks[m.sys.current]| - 1);
  }

  // A process writes to its own terminal's screen, on the screen or off it,
  // exactly when it was recorded for that terminal.
  lemma OutputIsOwnIffAligned(m: Machine)
    requires m.Inv()
    ensures 0 <= m.sys.cr3 < TASK_NUMBER
    ensures m.OutputPage() == m.PageOf(m.sys.current) <==> m.sys.Top(m.sys.current).terminal == m.sys.current
  {
    OutputFollowsRecord(m);
  }

  ghost function Step(m: Machine, i: Input): Machine
    requires m.Inv() && i.Ok()
  {
    match i
    case Output(text) =>
      OutputFollowsRecord(m);
      var p, c := m.OutputPage(), m.sys.current;
      var l := C.EmitAll(C.Local(m.pages[p], m.terms[c]), text);
      m.(pages := m.pages[p := l.page], terms := m.terms[c := l.term])
    case Typed(key) =>
      var v := m.sys.visible;
      var l := L.Press(C.Local(m.pages[0], m.terms[v]), key);
      m.(pages := m.pages[0 := l.page], terms := m.terms[v := l.term])
    case Process(e) =>
      var m1 := m.(sys := ProcessModel.Step(m.sys, e).0);
      match e
      case HaltCall(_) => m1.(terms := m.terms[m.sys.current := L.ClosedTerminal(m.terms[m.sys.current])])
      case SwitchKey(t, _) => m1.(pages := SwitchedPages(m.pages, m.sys.visible, t))
      case _ => m1
  }

  // Where the display's cursor stands after a process output. The call moves
  // it along if the running terminal is the one that the call noted as visible.
  ghost function DisplayAfter(m: Machine, text: seq<Byte>, noted: int, cell: int): int
    requires m.Inv()
  {
    OutputFollowsRecord(m);
    if m.sys.current == noted
    then C.Displayed(C.Local(m.pages[m.OutputPage()], m.terms[m.sys.current]), text, cell)
    else cell
  }

  // The screen is saved for the terminal that leaves it, then replaced.
  function SwitchedPages(pages: seq<seq<Byte>>, previous: int, next: int): (r: seq<seq<Byte>>)
    requires |pages| == 1 + TOTAL_TERMINALS && 0 <= previous < TOTAL_TERMINALS && 0 <= next < TOTAL_TERMINALS
    ensures |r| == |pages|
  {
    if previous == next then pages
    else pages[previous + 1 := pages[0]][0 := pages[next + 1]]
  }

  // ----- Three independent terminals -----

  // What one input means to one terminal.
  datatype Op = Emit(text: seq<Byte>) | Press(key: L.Key) | Close

  ghost function OpFor(m: Machine, i: Input, t: int): Option<Op>
    requires m.Inv()
  {
    match i
    case Output(text) => if t == m.sys.current then Some(Emit(text)) else None
    case Typed(key) => if t == m.sys.visible then Some(Press(key)) else None
    case Process(e) => if e.HaltCall? && t == m.sys.current then Some(Close) else None
  }

  // What an event does to the machine and to the control of the processor.
  ghost function After(m: Machine, e: Event): (Machine, Outcome)
    requires m.Inv() && Process(e).Ok()
  {
    (Step(m, Process(e)), ProcessModel.Step(m.sys, e).1)
  }

  // A halt, part by part.
  lemma HaltStep(m: Machine, status: int)
    requires m.Inv()
    ensures 1 <= m.sys.Top(m.sys.current).pid <= MAX_PCB_NUM && |m.terms[m.sys.current].buffer| == C.MAX_SIZE
    ensures var (sys, o) := ProcessModel.Halt(m.sys, status);
      && !o.Returned?
      && After(m, HaltCall(status)) == (Machine(sys, m.pages, m.terms[m.sys.current := L.ClosedTerminal(m.terms[m.sys.current])]), o)
  {
    hide System.Distinct, FramesOk, Mapped, Loaded, Resumable, ProcessModel.Halt;
    HaltKeeps(m.sys, status);
  }

  // A switch, part by part.
  lemma SwitchStep(m: Machine, t: int, regs: Regs)
    requires m.Inv() && SwitchKey(t, regs).Ok()
    ensures var (sys, o) := ProcessModel.Switch(m.sys, t, regs);
      && sys.visible == t && o != Returned(-1)
      && After(m, SwitchKey(t, regs)) == (Machine(sys, SwitchedPages(m.pages, m.sys.visible, t), m.terms), o)
  {
    hide ProcessModel.Switch, ProcessModel.Inv;
    SwitchKeeps(m.sys, t, regs);
    VisibleAfter(m.sys, SwitchKey(t, regs));
  }

  ghost predicate TerminalOk(l: C.Local) { l.Ok() && L.BuffersOk(l.term) }

  ghost function Apply(l: C.Local, op: Option<Op>): (r: C.Local)
    requires TerminalOk(l)
    ensures TerminalOk(r)
  {
    match op
    case None => l
    case Some(Emit(text)) => C.EmitAllKeepsBuffers(l, text); C.EmitAll(l, text)
    case Some(Press(key)) => L.PressKeepsBuffers(l, key); L.Press(l, key)
    case Some(Close) => l.(term := L.ClosedTerminal(l.term))
  }

  lemma OutputKeeps(m: Machine, text: seq<Byte>)
    requires m.Inv()
    ensures Step(m, Output(text)).Inv()
    ensures OwnOutput(m) ==> IsLocal(m, Output(text))
  {
    hide System.Distinct, FramesOk, Mapped, Loaded, Resumable;
    OutputFollowsRecord(m);
    C.EmitAllKeepsBuffers(C.Local(m.pages[m.OutputPage()], m.terms[m.sys.current]), text);
  }

  // The running process is recorded for the terminal it runs on.
  ghost predicate OwnOutput(m: Machine)
    requires m.Inv()
  {
    m.sys.Top(m.sys.current).terminal == m.sys.current
  }

  // Every terminal gets from an input what is meant for it, and nothing else.
  ghost predicate IsLocal(m: Machine, i: Input)
    requires m.Inv() && i.Ok() && Step(m, i).Inv()
  {
    forall t :: 0 <= t < TOTAL_TERMINALS ==> Step(m, i).Logical(t) == Apply(m.Logical(t), OpFor(m, i, t))
  }

  // Whatever the running process prints reaches its own terminal only, if and
  // only if the process is recorded for that terminal.
  lemma OutputIsLocalIffOwn(m: Machine)
    requires m.Inv()
    ensures forall text :: Step(m, Output(text)).Inv()
    ensures (forall text :: IsLocal(m, Output(text))) <==> OwnOutput(m)
  {
    forall text: seq<Byte> | true
      ensures Step(m, Output(text)).Inv() && (OwnOutput(m) ==> IsLocal(m, Output(text)))
    {
      OutputKeeps(m, text);
    }
    if !OwnOutput(m) {
      var text := StrayText(m);
      assert !IsLocal(m, Output(text));
    }
  }

  // A character that the terminal's own screen would have shown.
  lemma StrayText(m: Machine) returns (text: seq<Byte>)
    requires m.Inv() && !OwnOutput(m)
    ensures Step(m, Output(text)).Inv() && !IsLocal(m, Output(text))
  {
    hide System.Distinct, FramesOk, Mapped, Loaded, Resumable, C.Emit;
    OutputFollowsRecord(m);
    var c := m.sys.current;
    var l := m.Logical(c);
    C.PrintableMoves(l, 0);
    var cell := C.CursorCell(C.Emit(l, 0).term) - 1;
    var ch: Byte := if C.Glyph(l.page, cell) == 65 then 66 else 65;
    C.PrintableMoves(l, ch);
    C.EmitOne(l, ch);
    text := [ch];
    OutputKeeps(m, text);
    assert Step(m, Output(text)).Logical(c).page == l.page;
    assert Apply(l, OpFor(m, Output(text), c)).page == C.Emit(l, ch).page;
  }

  lemma TypedKeeps(m: Machine, key: L.Key)
    requires m.Inv()
    ensures Step(m, Typed(key)).Inv()
    ensures IsLocal(m, Typed(key))
  {
    hide System.Distinct, FramesOk, Mapped, Loaded, Resumable;
    L.PressKeepsBuffers(C.Local(m.pages[0], m.terms[m.sys.visible]), key);
  }

  lemma ProcessKeeps(m: Machine, e: Event)
    requires m.Inv() && Process(e).Ok()
    ensures Step(m, Process(e)).Inv()
    ensures IsLocal(m, Process(e))
  {
    hide System.Distinct, FramesOk, Mapped, Loaded, Resumable, ProcessModel.Step;
    StepKeeps(m.sys, e);
    VisibleAfter(m.sys, e);
  }

  // One step, seen by each terminal: only its own inputs reach it.
  lemma StepIsLocal(m: Machine, i: Input)
    requires m.Inv() && i.Ok()
    ensures Step(m, i).Inv()
    ensures (i.Output? ==> OwnOutput(m)) ==> IsLocal(m, i)
  {
    hide IsLocal;
    match i
    case Output(text) => OutputKeeps(m, text);
    case Typed(key) => TypedKeeps(m, key);
    case Process(e) => ProcessKeeps(m, e);
  }

  // ----- Whole runs -----

  ghost predicate AllOk(inputs: seq<Input>) { forall k :: 0 <= k < |inputs| ==> inputs[k].Ok() }

  ghost function Run(m: Machine, inputs: seq<Input>): (r: Machine)
    requires m.Inv() && AllOk(inputs)
    ensures r.Inv()
  {
    if inputs == [] then m
    else
      var n := |inputs| - 1;
      var p := Run(m, inputs[..n]);
      StepIsLocal(p, inputs[n]);
      Step(p, inputs[n])
  }

  // The inputs of a run that are addressed to terminal t, applied in order.
  ghost function Replay(m: Machine, inputs: seq<Input>, t: int): (r: C.Local)
    requires m.Inv() && AllOk(inputs) && 0 <= t < TOTAL_TERMINALS
    ensures TerminalOk(r)
  {
    if inputs == [] then m.Logical(t)
    else
      var n := |inputs| - 1;
      Apply(Replay(m, inputs[..n], t), OpFor(Run(m, inputs[..n]), inputs[n], t))
  }

  // Every process created outside a launch is created while its terminal is
  // on the screen.
  ghost predicate Attended(m: Machine, inputs: seq<Input>)
    requires m.Inv() && AllOk(inputs)
  {
    forall k :: 0 <= k < |inputs| && inputs[k].Process? ==>
      var s := Run(m, inputs[..k]).sys;
      Creates(s, inputs[k].event) ==> s.current == s.visible
  }

  lemma StepStaysAligned(m: Machine, i: Input)
    requires m.Inv() && i.Ok() && Aligned(m.sys)
    requires i.Process? && Creates(m.sys, i.event) ==> m.sys.current == m.sys.visible
    ensures Aligned(Step(m, i).sys)
  {
    hide System.Distinct, FramesOk, Mapped, Loaded, Resumable, ProcessModel.Step, Aligned, Creates;
    if i.Process? { AlignmentCondition(m.sys, i.event); }
  }

  // Each output of the run is made by a process that is recorded for the
  // terminal it runs on.
  ghost predicate OwnOutputs(m: Machine, inputs: seq<Input>)
    requires m.Inv() && AllOk(inputs)
  {
    forall k :: 0 <= k < |inputs| && inputs[k].Output? ==> OwnOutput(Run(m, inputs[..k]))
  }

  lemma {:induction false} AttendedStaysAligned(m: Machine, inputs: seq<Input>)
    requires m.Inv() && AllOk(inputs) && Aligned(m.sys) && Attended(m, inputs)
    ensures Aligned(Run(m, inputs).sys)
    decreases |inputs|
  {
    hide System.Distinct, FramesOk, Mapped, Loaded, Resumable, Step, Aligned;
    if inputs != [] {
      var n := |inputs| - 1;
      AttendedPrefix(m, inputs, n);
      AttendedStaysAligned(m, inputs[..n]);
      StepStaysAligned(Run(m, inputs[..n]), inputs[n]);
    }
  }

  lemma AttendedPrefix(m: Machine, inputs: seq<Input>, n: nat)
    requires m.Inv() && AllOk(inputs) && Attended(m, inputs) && n <= |inputs|
    ensures Attended(m, inputs[..n])
  {
    hide Machine.Inv, Run, Creates;
    forall k | 0 <= k < n ensures inputs[..n][..k] == inputs[..k] {}
  }

  lemma AlignedOutput(m: Machine)
    requires m.Inv() && Aligned(m.sys)
    ensures OwnOutput(m)
  {
    assert m.sys.At(m.sys.current, |m.sys.stacks[m.sys.current]| - 1);
  }

  // If every process is created while its terminal is on the screen, every
  // output is made by a process recorded for its own terminal.
  lemma AttendedOutputs(m: Machine, inputs: seq<Input>)
    requires m.Inv() && AllOk(inputs) && Aligned(m.sys) && Attended(m, inputs)
    ensures OwnOutputs(m, inputs)
  {
    forall k | 0 <= k < |inputs| && inputs[k].Output? ensures OwnOutput(Run(m, inputs[..k])) {
      AttendedPrefix(m, inputs, k);
      AttendedStaysAligned(m, inputs[..k]);
      AlignedOutput(Run(m, inputs[..k]));
    }
  }

  // Three terminals in one: after any run of process outputs, keys, switches
  // and process events, the screen and the fields of each terminal are those
  // of its own inputs, in order, and of nothing else.
  lemma {:induction false} TerminalsAreIndependent(m: Machine, inputs: seq<Input>)
    requires m.Inv() && AllOk(inputs) && OwnOutputs(m, inputs)
    ensures forall t :: 0 <= t < TOTAL_TERMINALS ==> Run(m, inputs).Logical(t) == Replay(m, inputs, t)
    decreases |inputs|
  {
    hide System.Distinct, FramesOk, Mapped, Loaded, Resumable, Step, OwnOutput, Apply;
    if inputs != [] {
      var n := |inputs| - 1;
      OwnOutputsBefore(m, inputs, n);
      TerminalsAreIndependent(m, inputs[..n]);
      StepIsLocal(Run(m, inputs[..n]), inputs[n]);
    }
  }

  lemma OwnOutputsBefore(m: Machine, inputs: seq<Input>, n: nat)
    requires m.Inv() && AllOk(inputs) && OwnOutputs(m, inputs) && n <= |inputs|
    ensures OwnOutputs(m, inputs[..n])
  {
    hide Machine.Inv, Run, OwnOutput;
    forall k | 0 <= k < n ensures inputs[..n][..k] == inputs[..k] {}
  }

  // ----- One sheet of paper for each terminal -----

  // What one input means to the sheet behind a terminal.
  function PaperApply(p: C.Paper, term: C.Term, op: Option<Op>): (r: C.Paper)
    requires p.Ok() && term.bufferSize >= 0
    ensures r.Ok()
  {
    match op
    case None => p
    case Some(Emit(text)) => C.PaperEmitAll(p, text, term.bufferFlag)
    case Some(Press(key)) => L.PaperPress(p, term.bufferSize, key)
    case Some(Close) => p
  }

  lemma ApplyShows(l: C.Local, p: C.Paper, op: Option<Op>)
    requires TerminalOk(l) && p.Ok() && C.Shows(l, p)
    ensures C.Shows(Apply(l, op), PaperApply(p, l.term, op))
  {
    match op
    case None =>
    case Some(Emit(text)) => C.ConsoleIsWindow(l, p, text);
    case Some(Press(key)) => L.PressShows(l, p, key);
    case Some(Close) =>
  }

  // Rows that have left the screen are never written again.
  lemma ApplyKeepsHistory(p: C.Paper, term: C.Term, op: Option<Op>)
    requires p.Ok() && term.bufferSize >= 0
    ensures var p' := PaperApply(p, term, op);
      p'.top >= p.top && |p'.sheet| >= |p.sheet| && p'.sheet[..C.WIDTH * p.top] == p.sheet[..C.WIDTH * p.top]
  {
    match op
    case None =>
    case Some(Emit(text)) => C.HistoryIsKept(p, text, term.bufferFlag);
    case Some(Press(key)) => L.PressKeepsHistory(p, term.bufferSize, key);
    case Some(Close) =>
  }

  // The sheet on which the inputs of a run to terminal t have been written.
  ghost function PaperReplay(m: Machine, inputs: seq<Input>, t: int): (r: C.Paper)
    requires m.Inv() && AllOk(inputs) && 0 <= t < TOTAL_TERMINALS
    ensures r.Ok()
  {
    if inputs == [] then C.PaperOf(m.Logical(t))
    else
      var n := |inputs| - 1;
      PaperApply(PaperReplay(m, inputs[..n], t), Replay(m, inputs[..n], t).term, OpFor(Run(m, inputs[..n]), inputs[n], t))
  }

  lemma {:induction false} ReplayShows(m: Machine, inputs: seq<Input>, t: int)
    requires m.Inv() && AllOk(inputs) && 0 <= t < TOTAL_TERMINALS
    ensures C.Shows(Replay(m, inputs, t), PaperReplay(m, inputs, t))
    decreases |inputs|
  {
    hide Machine.Inv, Apply, PaperApply, Run, OpFor;
    if inputs != [] {
      var n := |inputs| - 1;
      ReplayShows(m, inputs[..n], t);
      ApplyShows(Replay(m, inputs[..n], t), PaperReplay(m, inputs[..n], t), OpFor(Run(m, inputs[..n]), inputs[n], t));
    }
  }

  // Every terminal, on the screen or off it, is at all times the last 25 rows
  // of its own sheet, on which its outputs, keys and halts have been written
  // in the order of the run.
  lemma EveryTerminalHasItsSheet(m: Machine, inputs: seq<Input>, t: int)
    requires m.Inv() && AllOk(inputs) && OwnOutputs(m, inputs) && 0 <= t < TOTAL_TERMINALS
    ensures C.Shows(Run(m, inputs).Logical(t), PaperReplay(m, inputs, t))
  {
    TerminalsAreIndependent(m, inputs);
    ReplayShows(m, inputs, t);
  }

  // ----- The display's cursor -----

  // The display's cursor, which stood with the visible terminal, stands with
  // it again after the output.
  ghost predicate CursorStays(m: Machine, text: seq<Byte>, noted: int)
    requires m.Inv()
  {
    DisplayAfter(m, text, noted, C.CursorCell(m.terms[m.sys.visible]))
      == C.CursorCell(Step(m, Output(text)).terms[m.sys.visible])
  }

  lemma CursorKept(m: Machine, text: seq<Byte>, noted: int)
    requires m.Inv() && ((m.sys.current == noted) == (m.sys.current == m.sys.visible))
    ensures CursorStays(m, text, noted)
  {
    OutputFollowsRecord(m);
    if m.sys.current == noted { C.DisplayFollows(C.Local(m.pages[m.OutputPage()], m.terms[m.sys.current]), text); }
  }

  // The output leaves the cursor with the visible terminal, whatever is
  // printed, if and only if the running terminal was noted as visible exactly
  // when it is.
  lemma CursorKeptIff(m: Machine, noted: int)
    requires m.Inv()
    ensures (forall text :: CursorStays(m, text, noted)) <==> ((m.sys.current == noted) == (m.sys.current == m.sys.visible))
  {
    if (m.sys.current == noted) == (m.sys.current == m.sys.visible) {
      forall text: seq<Byte> | true ensures CursorStays(m, text, noted) { CursorKept(m, text, noted); }
    } else {
      var text := StrayCursor(m, noted);
    }
  }

  // One character or two of them leave the cursor in the wrong place.
  lemma StrayCursor(m: Machine, noted: int) returns (text: seq<Byte>)
    requires m.Inv() && ((m.sys.current == noted) != (m.sys.current == m.sys.visible))
    ensures text in {[65], [65, 65]} && !CursorStays(m, text, noted)
  {
    hide ProcessModel.Inv, C.Emit, C.EmitAll, C.Displayed;
    OutputFollowsRecord(m);
    var l := C.Local(m.pages[m.OutputPage()], m.terms[m.sys.current]);
    C.EmitOne(l, 65);
    C.PrintableMoves(l, 65);
    C.PrintableMoves(C.Emit(l, 65), 65);
    text := if m.sys.current == m.sys.visible || C.CursorCell(C.Emit(l, 65).term) != C.CursorCell(m.terms[m.sys.visible])
      then [65] else [65, 65];
  }

  // The failing case arises: a write on terminal 1 notes that terminal 1 is
  // visible, Alt+F2 cuts it, a tick goes back to it, and the rest of the text
  // takes the display's cursor away from terminal 2.
  lemma CutWriteStraysCursor(m: Machine, regs: Regs)
    requires m.Inv() && Booted(m.sys) && regs.Nonzero()
    ensures var r := Run(m, [Process(SwitchKey(1, regs)), Process(TimerTick(regs))]);
      && r.sys.current == m.sys.visible && r.sys.visible == 1
      && exists text :: text in {[65], [65, 65]} && !CursorStays(r, text, m.sys.visible)
  {
    var inputs := [Process(SwitchKey(1, regs)), Process(TimerTick(regs))];
    SwitchThenTick(m, regs);
    hide *;
    var text := StrayCursor(Run(m, inputs), 0);
  }

  lemma SwitchThenTick(m: Machine, regs: Regs)
    requires m.Inv() && Booted(m.sys) && regs.Nonzero()
    ensures var inputs := [Process(SwitchKey(1, regs)), Process(TimerTick(regs))];
      && AllOk(inputs) && m.sys.visible == 0
      && Run(m, inputs).sys.current == 0 && Run(m, inputs).sys.visible == 1
  {
    assert Process(SwitchKey(1, regs)).Ok() && Process(TimerTick(regs)).Ok() && m.sys.visible == 0;
    hide ProcessModel.Inv, Machine.Inv, Run, ProcessModel.Step, ProcessModel.Switch, ProcessModel.Tick, Booted, Ready;
    LaunchAndTick(m.sys, regs);
    TwoEvents(m, SwitchKey(1, regs), TimerTick(regs));
    BootIsReady(m, regs);
    StepOfSwitch(m.sys, SwitchKey(1, regs));
    StepOfTick(ProcessModel.Switch(m.sys, 1, regs).0, regs);
  }

  lemma BootIsReady(m: Machine, regs: Regs)
    requires m.Inv() && regs.Nonzero() && ProcessModel.Inv(ProcessModel.Switch(m.sys, 1, regs).0)
    ensures Ready(m.sys) && Ready(ProcessModel.Switch(m.sys, 1, regs).0)
  {
    hide System.Distinct, FramesOk, Mapped, Loaded, Resumable, ProcessModel.Switch;
  }

  lemma TwoEvents(m: Machine, d: Event, e: Event)
    requires m.Inv() && Process(d).Ok() && Process(e).Ok()
    ensures var inputs := [Process(d), Process(e)];
      && AllOk(inputs)
      && ProcessModel.Inv(ProcessModel.Step(m.sys, d).0)
      && Run(m, inputs).sys == ProcessModel.Step(ProcessModel.Step(m.sys, d).0, e).0
  {
    hide *;
    var m1 := Step(m, Process(d));
    EventStep(m, d);
    EventStep(m1, e);
    AllOkTwo(d, e);
    RunFurther(m, [], Process(d));
    RunFurther(m, [Process(d)], Process(e));
    assert [] + [Process(d)] == [Process(d)] && [Process(d)] + [Process(e)] == [Process(d), Process(e)];
  }

  lemma AllOkTwo(d: Event, e: Event)
    requires Process(d).Ok() && Process(e).Ok()
    ensures AllOk([]) && AllOk([Process(d)]) && AllOk([Process(d), Process(e)])
  {
  }

  lemma EventStep(m: Machine, e: Event)
    requires m.Inv() && Process(e).Ok()
    ensures Step(m, Process(e)).Inv() && ProcessModel.Inv(m.sys) && ProcessModel.Inv(ProcessModel.Step(m.sys, e).0)
    ensures Step(m, Process(e)).sys == ProcessModel.Step(m.sys, e).0
  {
    ProcessKeeps(m, e);
    hide ProcessModel.Step;
  }

  lemma RunFurther(m: Machine, inputs: seq<Input>, i: Input)
    requires m.Inv() && AllOk(inputs) && i.Ok()
    ensures AllOk(inputs + [i]) && Run(m, inputs + [i]) == Step(Run(m, inputs), i)
    ensures inputs == [] ==> Run(m, inputs) == m
  {
    hide Step, Machine.Inv;
    assert (inputs + [i])[..|inputs|] == inputs;
  }

  // ----- What a halt does to its terminal -----

  // The next process finds an empty line, nothing stored, and a prompt that
  // cannot be erased; the picture and the other terminals stay.
  lemma HaltClearsLine(m: Machine, status: int, e: L.Editor)
    requires m.Inv() && L.Edits(m.terms[m.sys.current], e)
    ensures var r := Step(m, Process(HaltCall(status)));
      var c := m.sys.current;
      && |r.terms| == TOTAL_TERMINALS && r.pages == m.pages
      && L.Edits(r.terms[c], L.Editor([], [])) && r.terms[c].bufferFlag == 1
      && L.SamePicture(C.Local(r.pages[0], r.terms[c]), C.Local(m.pages[0], m.terms[c]))
      && forall t :: 0 <= t < TOTAL_TERMINALS && t != c ==> r.terms[t] == m.terms[t]
  {
    L.ClosingForgets(m.terms[m.sys.current], e);
    hide ProcessModel.Step, ProcessModel.Inv, L.ClosedTerminal, L.Edits;
  }
}
