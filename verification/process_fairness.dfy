// Who runs, over whole runs: active terminals stay active and are served
// within three ticks, and a terminal launched on a full table is lost.
module ProcessFairness {
  import opened Types
  import opened ProcessModel
  import opened ProcessSafety
  import opened ProcessRuns

  // ----- Activity -----

  ghost predicate ActivityKept(s: System, s': System, t: int) {
    && s.Shape() && s'.Shape() && 0 <= t < TOTAL_TERMINALS
    && (s.Active(t) ==> s'.Active(t))
    && (s.started[t] ==> s'.started[t])
    && (s.started[t] && !s.Active(t) ==> !s'.Active(t))
  }

  lemma ExecuteKeepsActivity(s: System, known: bool, regs: Regs, t: int)
    requires Inv(s) && 0 <= t < TOTAL_TERMINALS
    ensures ActivityKept(s, Execute(s, known, regs).0, t)
  {
    hide System.Distinct, FramesOk, Mapped, Resumable, Loaded, FreeSlot;
  }

  lemma HaltKeepsActivity(s: System, status: int, t: int)
    requires Inv(s) && 0 <= t < TOTAL_TERMINALS
    ensures ActivityKept(s, Halt(s, status).0, t)
  {
    hide System.Distinct, FramesOk, Mapped, Resumable, FreeSlot;
    HaltKeeps(s, status);
  }

  lemma TickKeepsActivity(s: System, regs: Regs, t: int)
    requires Inv(s) && regs.Nonzero() && 0 <= t < TOTAL_TERMINALS
    ensures ActivityKept(s, Tick(s, regs).0, t)
  {
    hide System.Distinct, FramesOk, Mapped, Resumable, NextTerminal;
    TickStacks(s, regs);
  }

  lemma FilesKeepActivity(s: System, files: seq<File>, t: int)
    requires Inv(s) && 0 <= t < TOTAL_TERMINALS
    ensures ActivityKept(s, WithFiles(s, files), t)
  {
    hide System.Distinct, FramesOk, Mapped, Resumable, Loaded;
  }

  lemma SwitchKeepsActivity(s: System, u: int, regs: Regs, t: int)
    requires Inv(s) && SwitchKey(u, regs).Ok() && 0 <= t < TOTAL_TERMINALS
    ensures ActivityKept(s, Switch(s, u, regs).0, t)
  {
    hide System.Distinct, FramesOk, Mapped, Loaded, Resumable, Switch;
    SwitchStacks(s, u, regs);
    SwitchStarts(s, u, regs);
  }

  // Halting a root process frees a slot and restarts a shell in it, so no
  // step deactivates a terminal; and only a launch activates one.
  lemma StepKeepsActivity(s: System, e: Event, t: int)
    requires Inv(s) && e.Ok() && 0 <= t < TOTAL_TERMINALS
    ensures ActivityKept(s, Step(s, e).0, t)
  {
    hide System.Distinct, FramesOk, Mapped, Resumable, Loaded, ActivityKept,
      Execute, Halt, Tick, Switch, OpenFile, CloseFile, ReadThrough, WithFiles;
    match e
    case ExecuteCall(known, regs) => ExecuteKeepsActivity(s, known, regs, t);
    case HaltCall(status) => HaltKeepsActivity(s, status, t);
    case TimerTick(regs) => TickKeepsActivity(s, regs, t);
    case SwitchKey(u, regs) => SwitchKeepsActivity(s, u, regs, t);
    case OpenCall(found) => FilesKeepActivity(s, OpenFile(s.Top(s.current).files, found).0, t);
    case CloseCall(fd) => FilesKeepActivity(s, CloseFile(s.Top(s.current).files, fd).0, t);
    case ReadCall(fd, _, reply) => FilesKeepActivity(s, ReadThrough(s.Top(s.current).files, fd, reply).0, t);
  }

  lemma SwitchStarts(s: System, u: int, regs: Regs)
    requires Inv(s) && SwitchKey(u, regs).Ok()
    ensures var s' := Switch(s, u, regs).0;
      s'.Shape() && s'.started == s.started[u := s.started[u] || u != s.visible]
  {
    hide System.Distinct, FramesOk, Mapped, Loaded, Resumable, NextTerminal, FreeSlot, Remapped;
  }

  lemma {:induction false} ActiveForever(s: System, es: seq<Event>, t: int)
    requires Inv(s) && AllOk(es) && 0 <= t < TOTAL_TERMINALS
    ensures s.Active(t) ==> Run(s, es).Active(t)
    ensures s.started[t] ==> Run(s, es).started[t]
    decreases |es|
  {
    hide System.Distinct, FramesOk, Mapped, Resumable, Loaded, Step;
    if es != [] {
      ActiveForever(s, es[..|es| - 1], t);
      StepKeepsActivity(Run(s, es[..|es| - 1]), es[|es| - 1], t);
    }
  }

  // The terminal has been marked as running a shell but has no process: no
  // later event gives it one.
  lemma {:induction false} LostForever(s: System, es: seq<Event>, t: int)
    requires Inv(s) && AllOk(es) && 0 <= t < TOTAL_TERMINALS
    requires s.started[t] && !s.Active(t)
    ensures !Run(s, es).Active(t)
    decreases |es|
  {
    hide System.Distinct, FramesOk, Mapped, Resumable, Loaded, Step;
    if es != [] {
      LostForever(s, es[..|es| - 1], t);
      ActiveForever(s, es[..|es| - 1], t);
      StepKeepsActivity(Run(s, es[..|es| - 1]), es[|es| - 1], t);
    }
  }

  // The first switch to a terminal gives it a shell for good if and only if
  // some slot is free at that moment.
  lemma FirstSwitchServesIffSlotFree(s: System, t: int, regs: Regs, es: seq<Event>)
    requires Inv(s) && SwitchKey(t, regs).Ok() && AllOk(es)
    requires t != s.visible && !s.started[t]
    ensures var s1 := Switch(s, t, regs).0;
      Inv(s1) && (Run(s1, es).Active(t) <==> FreeSlot(s) != -1)
  {
    hide System.Distinct, FramesOk, Mapped, Resumable, Loaded, Switch, Run, Remapped;
    var s1 := Switch(s, t, regs).0;
    SwitchKeeps(s, t, regs);
    FirstSwitchOutcome(s, t, regs);
    if s1.Active(t) { ActiveForever(s1, es, t); } else { LostForever(s1, es, t); }
  }

  lemma FirstSwitchOutcome(s: System, t: int, regs: Regs)
    requires Inv(s) && SwitchKey(t, regs).Ok()
    requires t != s.visible && !s.started[t]
    ensures var s1 := Switch(s, t, regs).0;
      s1.Shape() && s1.started[t] && (s1.Active(t) <==> FreeSlot(s) != -1)
  {
    hide System.Distinct, FramesOk, Mapped, Remapped;
    var s0 := s.(page0 := Remapped(s, s.visible, t), visible := t);
    RemapKeepsBase(s, t);
    SameStacksAreLive(s, s0);
    hide Launch;
    LaunchingKeeps(s0, t, regs);
    LaunchKeeps(s0, t, regs);
    SwitchKeepsActivity(s, t, regs, t);
  }

  // ----- Round robin -----

  function Ticks(es: seq<Event>): nat {
    if es == [] then 0 else Ticks(es[..|es| - 1]) + if es[|es| - 1].TimerTick? then 1 else 0
  }

  // Cyclic distance from the scheduled terminal to t, in 1..3.
  function Distance(s: System, t: int): int
  {
    (t - s.current + 2) % TOTAL_TERMINALS + 1
  }

  // No event launches a terminal: every switch goes to a started one.
  predicate LaunchFree(s: System, es: seq<Event>)
    requires |s.started| == TOTAL_TERMINALS && AllOk(es)
  {
    forall k :: 0 <= k < |es| && es[k].SwitchKey? ==> s.started[es[k].terminal]
  }

  lemma StepApproaches(s: System, e: Event, t: int)
    requires Inv(s) && e.Ok() && 0 <= t < TOTAL_TERMINALS && s.Active(t)
    requires e.SwitchKey? ==> s.started[e.terminal]
    ensures var s' := Step(s, e).0;
      if e.TimerTick? then s'.current == t || Distance(s', t) < Distance(s, t)
      else s'.current == s.current
  {
    hide System.Distinct, FramesOk, Mapped, Resumable, Loaded, Tick, Halt;
    match e
    case HaltCall(status) => HaltKeeps(s, status);
    case TimerTick(regs) => TickGoesToNext(s, regs);
    case _ =>
  }

  // A tick runs the first active terminal after the scheduled one.
  lemma TickGoesToNext(s: System, regs: Regs)
    requires Inv(s) && regs.Nonzero()
    ensures var s' := Tick(s, regs).0;
      var a, b := (s.current + 1) % TOTAL_TERMINALS, (s.current + 2) % TOTAL_TERMINALS;
      s'.current == (if s.Active(a) then a else if s.Active(b) then b else s.current)
  {
    hide System.Distinct, FramesOk, Mapped, Loaded, Resumable, Ready;
    PreemptedKeeps(s, regs);
    var p := Preempted(s, regs);
    NextTerminalIsFirst(p, p.current);
    DispatchKeeps(p);
  }

  ghost predicate Served(s: System, es: seq<Event>, t: int)
    requires Inv(s) && AllOk(es)
  {
    exists k :: 0 <= k < |es| && es[k].TimerTick? && Run(s, es[..k + 1]).current == t
  }

  lemma {:induction false} ServedOrCloser(s: System, es: seq<Event>, t: int)
    requires Inv(s) && AllOk(es) && 0 <= t < TOTAL_TERMINALS && s.Active(t)
    requires LaunchFree(s, es)
    ensures Served(s, es, t) || Distance(Run(s, es), t) + Ticks(es) <= Distance(s, t)
    decreases |es|
  {
    hide System.Distinct, FramesOk, Mapped, Resumable, Loaded, Step, Ready;
    if es != [] {
      var n := |es| - 1;
      var p := Run(s, es[..n]);
      ServedOrCloser(s, es[..n], t);
      if Served(s, es[..n], t) {
        var k :| 0 <= k < n && es[..n][k].TimerTick? && Run(s, es[..n][..k + 1]).current == t;
        assert es[..n][..k + 1] == es[..k + 1];
      } else {
        ActiveForever(s, es[..n], t);
        if es[n].SwitchKey? { ActiveForever(s, es[..n], es[n].terminal); }
        StepApproaches(p, es[n], t);
        assert es[..n + 1] == es;
      }
    }
  }

  // Round-robin fairness: whatever else happens in between, three ticks serve
  // every active terminal, as long as no new terminal is launched.
  lemma ThreeTicksServe(s: System, es: seq<Event>, t: int)
    requires Inv(s) && AllOk(es) && 0 <= t < TOTAL_TERMINALS && s.Active(t)
    requires LaunchFree(s, es) && Ticks(es) >= 3
    ensures Served(s, es, t)
  {
    ServedOrCloser(s, es, t);
  }

  // How many terminals have not been started.
  function Unstarted(started: seq<bool>): nat
    requires |started| == TOTAL_TERMINALS
  {
    (if started[0] then 0 else 1) + (if started[1] then 0 else 1) + (if started[2] then 0 else 1)
  }

  lemma StepStarts(s: System, e: Event)
    requires Inv(s) && e.Ok()
    ensures var s' := Step(s, e).0;
      && s'.Shape()
      && (if e.SwitchKey? && !s.started[e.terminal] && e.terminal != s.visible
          then Unstarted(s'.started) == Unstarted(s.started) - 1
          else s'.started == s.started)
  {
    hide System.Distinct, FramesOk, Mapped, Resumable, Loaded, Halt, Switch, NextTerminal, FreeSlot;
    match e
    case HaltCall(status) => HaltKeeps(s, status);
    case SwitchKey(u, regs) => SwitchStarts(s, u, regs);
    case _ =>
  }

  // A launch may send the scheduler back, but it uses up a terminal.
  lemma StepPays(s: System, e: Event, t: int)
    requires Inv(s) && e.Ok() && 0 <= t < TOTAL_TERMINALS && s.Active(t)
    ensures var s' := Step(s, e).0;
      && s'.Shape()
      && ((e.TimerTick? && s'.current == t)
          || Distance(s', t) + 2 * Unstarted(s'.started) + (if e.TimerTick? then 1 else 0) <= Distance(s, t) + 2 * Unstarted(s.started))
  {
    assert s.Shape();
    hide System.Distinct, FramesOk, Mapped, Resumable, Loaded, Step, Ready, Unstarted;
    StepStarts(s, e);
    if e.SwitchKey? && !s.started[e.terminal] {
      if e.terminal == s.visible { SwitchStacks(s, e.terminal, e.regs); StepOfSwitch(s, e); }
    } else {
      StepApproaches(s, e, t);
    }
  }

  lemma StepOfSwitch(s: System, e: Event)
    requires Ready(s) && e.Ok() && e.SwitchKey?
    ensures Step(s, e) == Switch(s, e.terminal, e.regs)
  {
    hide Switch;
  }

  lemma StepOfTick(s: System, regs: Regs)
    requires Ready(s) && regs.Nonzero()
    ensures Step(s, TimerTick(regs)) == Tick(s, regs)
  {
    hide Tick;
  }

  lemma {:induction false} ServedOrPaid(s: System, es: seq<Event>, t: int)
    requires Inv(s) && AllOk(es) && 0 <= t < TOTAL_TERMINALS && s.Active(t)
    ensures Served(s, es, t)
      || Distance(Run(s, es), t) + 2 * Unstarted(Run(s, es).started) + Ticks(es) <= Distance(s, t) + 2 * Unstarted(s.started)
    decreases |es|
  {
    hide System.Distinct, FramesOk, Mapped, Resumable, Loaded, Step, Ready, Distance, Unstarted;
    if es != [] {
      var n := |es| - 1;
      ServedOrPaid(s, es[..n], t);
      if Served(s, es[..n], t) {
        var k :| 0 <= k < n && es[..n][k].TimerTick? && Run(s, es[..n][..k + 1]).current == t;
        assert es[..n][..k + 1] == es[..k + 1];
      } else {
        ActiveForever(s, es[..n], t);
        StepPays(Run(s, es[..n]), es[n], t);
        assert es[..n + 1] == es;
      }
    }
  }

  lemma DistanceIsPositive(s: System, t: int)
    ensures 1 <= Distance(s, t) <= TOTAL_TERMINALS
  {
  }

  lemma AtMostTwo(started: seq<bool>, t: int)
    requires |started| == TOTAL_TERMINALS && 0 <= t < TOTAL_TERMINALS && started[t]
    ensures Unstarted(started) <= 2
  {
  }

  // With launches as well: in every run with seven ticks, every terminal that
  // was active at the start is served.
  lemma SevenTicksServe(s: System, es: seq<Event>, t: int)
    requires Inv(s) && AllOk(es) && 0 <= t < TOTAL_TERMINALS && s.Active(t)
    requires Ticks(es) >= 7
    ensures Served(s, es, t)
  {
    assert s.started[t];
    hide *;
    ServedOrPaid(s, es, t);
    DistanceIsPositive(Run(s, es), t);
    DistanceIsPositive(s, t);
    AtMostTwo(s.started, t);
  }

  // ----- Processes and their own terminal -----

  // Every process is recorded for the terminal whose stack it is on.
  ghost predicate Aligned(s: System) {
    forall t, i :: s.At(t, i) ==> s.stacks[t][i].terminal == t
  }

  // The event creates a process outside a launch.
  ghost predicate Creates(s: System, e: Event)
    requires Inv(s) && e.Ok()
  {
    (e.ExecuteCall? && e.known && FreeSlot(s) != -1) || (e.HaltCall? && |s.stacks[s.current]| == 1)
  }

  // new_pcb records the visible terminal, not the scheduled one: alignment
  // survives an event exactly when a process created by it is created while
  // its terminal is on the screen.
  lemma AlignmentCondition(s: System, e: Event)
    requires Inv(s) && e.Ok() && Aligned(s)
    ensures Aligned(Step(s, e).0) <==> (Creates(s, e) ==> s.current == s.visible)
  {
    hide System.Distinct, FramesOk, Mapped, Resumable, Loaded, Halt, Tick, Switch;
    match e
    case ExecuteCall(known, regs) => AlignedExecute(s, known, regs);
    case HaltCall(status) => AlignedHalt(s, status);
    case TimerTick(regs) => AlignedTick(s, regs);
    case SwitchKey(u, regs) => AlignedSwitch(s, u, regs);
    case _ =>
  }

  lemma AlignedExecute(s: System, known: bool, regs: Regs)
    requires Ready(s) && Aligned(s)
    ensures Aligned(Execute(s, known, regs).0) <==> (known && FreeSlot(s) != -1 ==> s.current == s.visible)
  {
    var s' := Execute(s, known, regs).0;
    if known && FreeSlot(s) != -1 {
      var c, d := s.current, |s.stacks[s.current]|;
      assert s'.At(c, d) && s'.stacks[c][d].terminal == s.visible;
      forall t, i | s'.At(t, i) && !(t == c && i == d) ensures s'.stacks[t][i].terminal == t { assert s.At(t, i); }
    }
  }

  lemma AlignedHalt(s: System, status: int)
    requires Inv(s) && Aligned(s)
    ensures Aligned(Halt(s, status).0) <==> (|s.stacks[s.current]| == 1 ==> s.current == s.visible)
  {
    hide System.Distinct, FramesOk, Mapped, Resumable, Loaded, Execute;
    PoppedPlaces(s);
    var s1 := Popped(s);
    if |s.stacks[s.current]| == 1 {
      HaltOfARoot(s, status);
      var s' := Halt(s, status).0;
      assert s'.At(s.current, 0);
      forall t, i | s'.At(t, i) && t != s.current ensures s'.stacks[t][i].terminal == t { assert s.At(t, i); }
    } else {
      forall t, i | Halt(s, status).0.At(t, i) ensures s1.At(t, i) {}
    }
  }

  lemma AlignedTick(s: System, regs: Regs)
    requires Inv(s) && Aligned(s) && regs.Nonzero()
    ensures Aligned(Tick(s, regs).0)
  {
    hide System.Distinct, FramesOk, Mapped, Resumable, Loaded, Tick;
    TickStacks(s, regs);
    forall t, i | Tick(s, regs).0.At(t, i) ensures s.At(t, i) {}
  }

  lemma AlignedSwitch(s: System, u: int, regs: Regs)
    requires Inv(s) && Aligned(s) && SwitchKey(u, regs).Ok()
    ensures Aligned(Switch(s, u, regs).0)
  {
    hide System.Distinct, FramesOk, Mapped, Resumable, Loaded, Switch;
    SwitchStacks(s, u, regs);
    var s' := Switch(s, u, regs).0;
    forall t, i | s'.At(t, i) ensures s'.stacks[t][i].terminal == t {
      if t != u || s.Active(u) || !Switch(s, u, regs).1.Entered? { assert s.At(t, i); }
    }
  }

  // ----- Both defects are reachable -----

  lemma BootLives(b: System)
    requires Booted(b)
    ensures forall p :: b.Live(p) <==> p == 1
  {
    assert b.At(0, 0);
  }

  function Repeated(n: nat, regs: Regs): seq<Event> {
    seq(n, _ => ExecuteCall(true, regs))
  }

  lemma {:induction false} Filled(b: System, n: nat, regs: Regs)
    requires Booted(b) && n < MAX_PCB_NUM && regs.Nonzero()
    ensures var s := Run(b, Repeated(n, regs));
      && s.started == b.started && s.visible == b.visible
      && forall p :: s.Live(p) <==> 1 <= p <= n + 1
  {
    hide System.Distinct, FramesOk, Mapped, Resumable, Loaded;
    if n == 0 {
      BootLives(b);
    } else {
      Filled(b, n - 1, regs);
      var p := Run(b, Repeated(n - 1, regs));
      assert Repeated(n, regs)[..n - 1] == Repeated(n - 1, regs);
      assert FreeSlot(p) == n + 1;
      ExecuteLives(p, regs);
    }
  }

  // Five nested programs in terminal 1, then Alt+F2: terminal 2 counts as
  // started and can never run anything.
  lemma LostTerminalIsReachable(b: System, regs: Regs)
    requires Booted(b) && regs.Nonzero()
    ensures var s := Run(b, Repeated(5, regs) + [SwitchKey(1, regs)]);
      s.started[1] && !s.Active(1)
  {
    hide System.Distinct, FramesOk, Mapped, Resumable, Loaded, Switch;
    Filled(b, 5, regs);
    var es := Repeated(5, regs) + [SwitchKey(1, regs)];
    assert es[..5] == Repeated(5, regs);
    var s := Run(b, es[..5]);
    FirstSwitchOutcome(s, 1, regs);
    SwitchKeeps(s, 1, regs);
  }

  lemma BootedIsAligned(b: System)
    requires Booted(b)
    ensures Aligned(b)
  {
    assert b.Shape();
    hide Inv;
  }

  // Alt+F2, Alt+F1, and then the shell of terminal 2 starts a program: the
  // program is recorded for terminal 1 and prints on its screen.
  lemma MisalignedIsReachable(b: System, regs: Regs)
    requires Booted(b) && regs.Nonzero()
    ensures var s := Run(b, [SwitchKey(1, regs), SwitchKey(0, regs), ExecuteCall(true, regs)]);
      s.current == 1 && s.Active(1) && s.Top(1).terminal == 0
  {
    hide System.Distinct, FramesOk, Mapped, Resumable, Loaded, Switch, Remapped, FreeSlot;
    var es := [SwitchKey(1, regs), SwitchKey(0, regs), ExecuteCall(true, regs)];
    assert es[..2][..1] == es[..1] && es[..1][..0] == [];
    LaunchAndReturn(b, regs);
    assert Run(b, es[..1]) == Switch(b, 1, regs).0;
    assert Run(b, es[..2]) == Switch(Run(b, es[..1]), 0, regs).0;
  }

  lemma LaunchAndReturn(b: System, regs: Regs)
    requires Booted(b) && regs.Nonzero()
    ensures var s1 := Switch(b, 1, regs).0;
      && Inv(s1)
      && var s2 := Switch(s1, 0, regs).0;
         s2.Shape() && s2.current == 1 && s2.visible == 0 && FreeSlot(s2) != -1
  {
    hide System.Distinct, FramesOk, Mapped, Resumable, Loaded, Switch, Remapped;
    var (s1, o) := Switch(b, 1, regs);
    BootLives(b);
    assert !b.Live(2);
    FirstSwitchOutcome(b, 1, regs);
    SwitchKeeps(b, 1, regs);
    SwitchStacks(b, 1, regs);
    SwitchStarts(b, 1, regs);
    SwitchStacks(s1, 0, regs);
    VisibleAfter(b, SwitchKey(1, regs));
    VisibleAfter(s1, SwitchKey(0, regs));
    SwitchKeeps(s1, 0, regs);
    var s2 := Switch(s1, 0, regs).0;
    var p := if o.pid == 2 then 3 else 2;
    assert !s2.Live(p);
  }

  // Alt+F2 after boot, and a tick: terminal 1 runs while terminal 2 is visible.
  lemma LaunchAndTick(b: System, regs: Regs)
    requires Booted(b) && regs.Nonzero()
    ensures var s1 := Switch(b, 1, regs).0;
      && Inv(s1)
      && var s2 := Tick(s1, regs).0;
         s2.Shape() && s2.current == 0 && s2.visible == 1
  {
    hide System.Distinct, FramesOk, Mapped, Resumable, Loaded, Switch, Remapped, Tick;
    var s1 := Switch(b, 1, regs).0;
    BootLives(b);
    assert !b.Live(2);
    FirstSwitchOutcome(b, 1, regs);
    SwitchKeeps(b, 1, regs);
    SwitchStacks(b, 1, regs);
    VisibleAfter(b, SwitchKey(1, regs));
    TickGoesToNext(s1, regs);
    VisibleAfter(s1, TimerTick(regs));
    TickKeeps(s1, regs);
  }
}
