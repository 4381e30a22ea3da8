// Safety over whole runs: what halt and the scheduler give back, which
// terminals run, and which processes stay with their own terminal.
module ProcessRuns {
  import opened Types
  import opened ProcessModel
  import opened ProcessSafety

  // ----- Runs -----

  ghost predicate AllOk(es: seq<Event>) {
    forall k :: 0 <= k < |es| ==> es[k].Ok()
  }

  ghost function Run(s: System, es: seq<Event>): (r: System)
    requires Inv(s) && AllOk(es)
    ensures Inv(r)
  {
    if es == [] then s
    else
      var n := |es| - 1;
      var p := Run(s, es[..n]);
      StepKeeps(p, es[n]);
      Step(p, es[n]).0
  }

  ghost function LastOutcome(s: System, es: seq<Event>): Outcome
    requires Inv(s) && AllOk(es) && es != []
  {
    Step(Run(s, es[..|es| - 1]), es[|es| - 1]).1
  }

  // The tables as the kernel's entry leaves them, before any process exists.
  ghost predicate Blank(s: System) {
    && s.Shape()
    && (forall t :: 0 <= t < TOTAL_TERMINALS ==> s.stacks[t] == [])
    && s.current == 0 && s.visible == 0
    && s.started == [true, false, false]
    && (forall k :: 0 <= k < TASK_NUMBER ==> s.page0[k] == VIDEO_FRAME)
  }

  // What a booted system looks like: one shell, on the first terminal.
  ghost predicate Booted(s: System) {
    && Inv(s)
    && s.current == 0 && s.visible == 0
    && s.started == [true, false, false]
    && s.stacks[0] == [NewFrame(1, 0)] && s.stacks[1] == [] && s.stacks[2] == []
  }

  // Entering the first shell boots the system.
  lemma BootIsSafe(s: System)
    requires Blank(s)
    ensures Booted(Execute(s, true, Regs(0, 0)).0)
  {
    hide Ready;
    assert forall p :: !s.Live(p);
    hide FreeFrom;
    ExecuteOnIdle(s, Regs(0, 0));
  }

  // ----- Execute and halt are brackets -----

  // The event that created the process now holding pid: the last event whose
  // step entered it.
  ghost function Birth(s: System, es: seq<Event>, pid: int): (k: int)
    requires Inv(s) && AllOk(es)
    ensures -1 <= k < |es|
  {
    if es == [] then -1
    else if LastOutcome(s, es) == Entered(pid) then |es| - 1
    else Birth(s, es[..|es| - 1], pid)
  }

  // One step leaves alone everything below the position of each process that
  // it does not create; a process created by execute sits on its parked caller.
  ghost predicate BelowKept(s: System, e: Event, t: int, i: int)
    requires Ready(s) && e.Ok()
  {
    var (s', o) := Step(s, e);
    s'.At(t, i) && i > 0 ==>
      || (s.At(t, i) && s'.stacks[t][i].pid == s.stacks[t][i].pid && s'.stacks[t][..i] == s.stacks[t][..i]
          && o != Entered(s'.stacks[t][i].pid))
      || (e.ExecuteCall? && t == s.current && i == |s.stacks[t]| && o == Entered(s'.stacks[t][i].pid)
          && s'.stacks[t][..i] == Parked(s.stacks[t], e.regs))
  }

  lemma NewPidWasFree(s: System, t: int, i: int)
    requires s.Distinct() && s.At(t, i)
    ensures s.stacks[t][i].pid != FreeSlot(s)
  {
    assert s.Live(s.stacks[t][i].pid);
  }

  lemma ExecuteKeepsBelow(s: System, known: bool, regs: Regs, t: int, i: int)
    requires Inv(s) && regs.Nonzero()
    ensures BelowKept(s, ExecuteCall(known, regs), t, i)
  {
    hide FramesOk, Mapped, Resumable;
    if s.At(t, i) { NewPidWasFree(s, t, i); }
  }

  lemma HaltKeepsBelow(s: System, status: int, t: int, i: int)
    requires Inv(s)
    ensures BelowKept(s, HaltCall(status), t, i)
  {
    hide System.Distinct, FramesOk, Mapped, Resumable, Loaded, Halt;
    if |s.stacks[s.current]| > 1 { HaltOfAChild(s, status); } else { HaltOfARoot(s, status); }
  }

  // What a terminal switch does to the stacks: nothing, or a preemption and
  // perhaps a first process on the new terminal.
  ghost predicate SwitchedStacks(s: System, t: int, regs: Regs)
    requires Inv(s) && SwitchKey(t, regs).Ok()
  {
    var (s', o) := Switch(s, t, regs);
    if t == s.visible || s.started[t] then
      s'.stacks == s.stacks && s'.current == s.current && o == Returned(0)
    else
      && t != s.current && !s.Active(t)
      && (if o.Entered? then
            && s'.stacks == Preempted(s, regs).stacks[t := [NewFrame(o.pid, t)]]
            && s'.current == t && !s.Live(o.pid)
          else s'.stacks == Preempted(s, regs).stacks && o.Resumed?)
  }

  lemma SwitchStacks(s: System, t: int, regs: Regs)
    requires Inv(s) && SwitchKey(t, regs).Ok()
    ensures SwitchedStacks(s, t, regs)
  {
    hide System.Distinct, FramesOk, Mapped, Remapped, NextTerminal, Launch;
    if t != s.visible && !s.started[t] {
      var s0 := s.(page0 := Remapped(s, s.visible, t), visible := t);
      RemapKeepsBase(s, t);
      SameStacksAreLive(s, s0);
      LaunchingKeeps(s0, t, regs);
      LaunchKeeps(s0, t, regs);
      assert Switch(s, t, regs) == Launch(s0, t, regs);
      assert Launching(s0, t, regs).stacks == Preempted(s, regs).stacks;
    }
  }

  lemma SwitchKeepsBelow(s: System, u: int, regs: Regs, t: int, i: int)
    requires Inv(s) && SwitchKey(u, regs).Ok()
    ensures BelowKept(s, SwitchKey(u, regs), t, i)
  {
    hide System.Distinct, FramesOk, Mapped, Resumable, Switch;
    SwitchStacks(s, u, regs);
    if s.At(t, i) { assert s.Live(s.stacks[t][i].pid); }
  }

  lemma StepKeepsBelow(s: System, e: Event, t: int, i: int)
    requires Inv(s) && e.Ok()
    ensures BelowKept(s, e, t, i)
  {
    match e
    case ExecuteCall(known, regs) => ExecuteKeepsBelow(s, known, regs, t, i);
    case HaltCall(status) => HaltKeepsBelow(s, status, t, i);
    case TimerTick(_) => hide System.Distinct, FramesOk, Mapped, Resumable, NextTerminal;
    case SwitchKey(u, regs) => SwitchKeepsBelow(s, u, regs, t, i);
    case OpenCall(_) => hide System.Distinct, FramesOk, Mapped, Resumable;
    case CloseCall(_) => hide System.Distinct, FramesOk, Mapped, Resumable;
    case ReadCall(_, _, _) => hide System.Distinct, FramesOk, Mapped, Resumable;
  }

  // The event that gave rise to a non-root process is an execute on its own
  // terminal, and what lies below the process is the stack of that moment
  // with the caller's registers parked.
  ghost predicate Bracketed(s: System, es: seq<Event>, t: int, i: int)
    requires Inv(s) && AllOk(es)
    requires Run(s, es).At(t, i)
  {
    var pid := Run(s, es).stacks[t][i].pid;
    var k := Birth(s, es, pid);
    && k != -1
    && es[k].ExecuteCall?
    && Run(s, es[..k]).current == t
    && Run(s, es).stacks[t][..i] == Parked(Run(s, es[..k]).stacks[t], es[k].regs)
  }

  lemma {:induction false} RunIsBracketed(s: System, es: seq<Event>, t: int, i: int)
    requires Booted(s) && AllOk(es)
    requires Run(s, es).At(t, i) && i > 0
    ensures Bracketed(s, es, t, i)
    decreases |es|
  {
    hide System.Distinct, FramesOk, Mapped, Resumable, Execute, Halt, Tick, Switch, Step;
    if es != [] {
      var n := |es| - 1;
      var p := Run(s, es[..n]);
      StepKeepsBelow(p, es[n], t, i);
      if p.At(t, i) && LastOutcome(s, es) != Entered(Run(s, es).stacks[t][i].pid) {
        RunIsBracketed(s, es[..n], t, i);
        var k := Birth(s, es[..n], p.stacks[t][i].pid);
        assert es[..n][..k] == es[..k];
      }
    }
  }

  // Halting a process that has a parent makes its execute return the status,
  // with the registers that execute parked, on the stack of that very moment: nothing that happened in
  // between, on any terminal, has touched the caller.
  lemma HaltReturnsToExecute(b: System, es: seq<Event>, status: int)
    requires Booted(b) && AllOk(es)
    requires var s := Run(b, es); |s.stacks[s.current]| > 1
    ensures var s := Run(b, es);
      var k := Birth(b, es, s.Top(s.current).pid);
      var (s', o) := Halt(s, status);
      && k != -1 && es[k].ExecuteCall?
      && o == Exited(es[k].regs, status)
      && s'.current == Run(b, es[..k]).current
      && s'.stacks[s'.current] == Parked(Run(b, es[..k]).stacks[s'.current], es[k].regs)
  {
    hide System.Distinct, FramesOk, Mapped, Resumable, Loaded, Halt, Run, Birth;
    var s := Run(b, es);
    var c, d := s.current, |s.stacks[s.current]| - 1;
    HaltOfAChild(s, status);
    RunIsBracketed(b, es, c, d);
    assert s.stacks[c][..d][d - 1] == s.stacks[c][d - 1];
  }

  // ----- Descheduled terminals are frozen -----

  predicate Leaves(before: System, after: System, t: int) {
    before.current == t && after.current != t
  }

  // The last event at which the scheduler left terminal t.
  ghost function LeftAt(s: System, es: seq<Event>, t: int): (k: int)
    requires Inv(s) && AllOk(es)
    ensures -1 <= k < |es|
  {
    if es == [] then -1
    else
      var n := |es| - 1;
      if Leaves(Run(s, es[..n]), Run(s, es), t) then n else LeftAt(s, es[..n], t)
  }

  function RegsOf(e: Event): Regs {
    match e
    case ExecuteCall(_, regs) => regs
    case TimerTick(regs) => regs
    case SwitchKey(_, regs) => regs
    case _ => Regs(0, 0)
  }

  ghost predicate OthersKept(s: System, e: Event, t: int)
    requires Ready(s) && e.Ok() && 0 <= t < TOTAL_TERMINALS
  {
    var s' := Step(s, e).0;
    && (t != s.current && t != s'.current ==> s'.stacks[t] == s.stacks[t])
    && (Leaves(s, s', t) ==> (e.TimerTick? || e.SwitchKey?) && s'.stacks[t] == Preempted(s, RegsOf(e)).stacks[t])
    && (e.TimerTick? && t != s.current && t == s'.current ==> s'.stacks[t] == s.stacks[t])
  }

  lemma HaltKeepsOthers(s: System, status: int, t: int)
    requires Inv(s) && 0 <= t < TOTAL_TERMINALS
    ensures OthersKept(s, HaltCall(status), t)
  {
    hide System.Distinct, FramesOk, Mapped, Resumable, FreeSlot, Loaded;
    TopIsASlot(s);
  }

  lemma TickStacks(s: System, regs: Regs)
    requires Inv(s) && regs.Nonzero()
    ensures Tick(s, regs).0.stacks == Preempted(s, regs).stacks
  {
    hide System.Distinct, FramesOk, Mapped, Resumable, NextTerminal;
  }

  lemma StepKeepsOthers(s: System, e: Event, t: int)
    requires Inv(s) && e.Ok() && 0 <= t < TOTAL_TERMINALS
    ensures OthersKept(s, e, t)
  {
    hide System.Distinct, FramesOk, Mapped, Resumable, Halt, Tick, Switch, FreeSlot;
    match e
    case HaltCall(status) => HaltKeepsOthers(s, status, t);
    case TimerTick(regs) => TickStacks(s, regs);
    case SwitchKey(u, regs) => SwitchStacks(s, u, regs);
    case _ =>
  }

  ghost predicate FrozenSince(s: System, es: seq<Event>, t: int)
    requires Inv(s) && AllOk(es) && 0 <= t < TOTAL_TERMINALS
  {
    var k := LeftAt(s, es, t);
    && k != -1 && (es[k].TimerTick? || es[k].SwitchKey?)
    && Run(s, es[..k]).current == t
    && Run(s, es).stacks[t] == Preempted(Run(s, es[..k]), RegsOf(es[k])).stacks[t]
  }

  lemma {:induction false} DescheduledIsFrozen(b: System, es: seq<Event>, t: int)
    requires Booted(b) && AllOk(es) && 0 <= t < TOTAL_TERMINALS
    requires var s := Run(b, es); s.Active(t) && t != s.current
    ensures FrozenSince(b, es, t)
    decreases |es|
  {
    hide System.Distinct, FramesOk, Mapped, Resumable, Loaded, Step;
    if es != [] {
      var n := |es| - 1;
      var p := Run(b, es[..n]);
      StepKeepsOthers(p, es[n], t);
      if p.current != t {
        DescheduledIsFrozen(b, es[..n], t);
        var k := LeftAt(b, es[..n], t);
        assert es[..n][..k] == es[..k];
      }
    }
  }

  // When the timer returns to a terminal, its process continues with the
  // registers it had when the terminal was left, and its stack is unchanged.
  lemma TickResumesWhereLeft(b: System, es: seq<Event>, regs: Regs)
    requires Booted(b) && AllOk(es) && regs.Nonzero()
    requires Tick(Run(b, es), regs).0.current != Run(b, es).current
    ensures var (s', o) := Tick(Run(b, es), regs);
      var k := LeftAt(b, es, s'.current);
      && k != -1
      && o == Resumed(RegsOf(es[k]))
      && s'.stacks[s'.current] == Preempted(Run(b, es[..k]), RegsOf(es[k])).stacks[s'.current]
  {
    hide System.Distinct, FramesOk, Mapped, Resumable, Loaded, Tick, Run, LeftAt;
    var s := Run(b, es);
    var (s', o) := Tick(s, regs);
    TickKeeps(s, regs);
    TickStacks(s, regs);
    var t := s'.current;
    assert s'.stacks[t] == s.stacks[t] && s.Active(t);
    DescheduledIsFrozen(b, es, t);
  }
}
