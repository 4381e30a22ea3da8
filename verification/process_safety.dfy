// Every step keeps the process invariant, and no defensive exit is taken.
module ProcessSafety {
  import opened Types
  import opened ProcessModel

  // The part of the invariant that also holds in the middle of a step, while
  // no process is loaded.
  ghost predicate Base(s: System) {
    s.Shape() && s.Distinct() && FramesOk(s) && Mapped(s)
  }

  lemma LoadedIsReady(s: System)
    requires Base(s) && Loaded(s)
    ensures Ready(s)
  {
    assert s.At(s.current, |s.stacks[s.current]| - 1);
  }

  // ----- Three ways to change the stacks -----

  // The same processes in the same places; only saved registers may differ.
  ghost predicate SameProcesses(s: System, s': System) {
    && s.Shape() && s'.Shape()
    && s'.page0 == s.page0 && s'.visible == s.visible
    && (forall t :: 0 <= t < TOTAL_TERMINALS ==> |s'.stacks[t]| == |s.stacks[t]|)
    && (forall t, i :: s.At(t, i) ==>
          && s'.At(t, i)
          && s'.stacks[t][i].pid == s.stacks[t][i].pid
          && s'.stacks[t][i].terminal == s.stacks[t][i].terminal
          && s'.stacks[t][i].files == s.stacks[t][i].files)
  }

  lemma LiveIsKept(s: System, s': System)
    requires SameProcesses(s, s')
    ensures forall p :: s'.Live(p) == s.Live(p)
  {
    forall p ensures s'.Live(p) == s.Live(p) {
      if s.Live(p) {
        var t, i :| s.At(t, i) && s.stacks[t][i].pid == p;
        assert s'.At(t, i);
      }
      if s'.Live(p) {
        var t, i :| s'.At(t, i) && s'.stacks[t][i].pid == p;
        assert s.At(t, i);
      }
    }
  }

  lemma SameProcessesKeepBase(s: System, s': System)
    requires Base(s) && SameProcesses(s, s')
    ensures Base(s')
  {
    LiveIsKept(s, s');
    forall t, i | s'.At(t, i) ensures s.At(t, i) {}
  }

  // Moving the machine to another terminal or process touches no process.
  lemma SameStacksKeepBase(s: System, s': System)
    requires Base(s) && s'.Shape()
    requires s'.stacks == s.stacks && s'.page0 == s.page0 && s'.visible == s.visible
    ensures Base(s')
  {
    assert SameProcesses(s, s');
    SameProcessesKeepBase(s, s');
  }

  ghost function Pushed(s: System, f: Frame): System
    requires s.Shape()
  {
    s.(stacks := s.stacks[s.current := s.stacks[s.current] + [f]])
  }

  lemma PushedPlaces(s: System, f: Frame)
    requires s.Shape()
    ensures var s' := Pushed(s, f);
      && (forall t, i :: s.At(t, i) ==> s'.At(t, i) && s'.stacks[t][i] == s.stacks[t][i])
      && s'.At(s.current, |s.stacks[s.current]|)
      && (forall t, i :: s'.At(t, i) && !(t == s.current && i == |s.stacks[s.current]|) ==> s.At(t, i))
      && (forall p :: s'.Live(p) <==> s.Live(p) || p == f.pid)
  {
    var s' := Pushed(s, f);
    var c, d := s.current, |s.stacks[s.current]|;
    forall p ensures s'.Live(p) <==> s.Live(p) || p == f.pid {
      if s.Live(p) {
        var t, i :| s.At(t, i) && s.stacks[t][i].pid == p;
        assert s'.At(t, i);
      }
      if p == f.pid { assert s'.At(c, d); }
      if s'.Live(p) {
        var t, i :| s'.At(t, i) && s'.stacks[t][i].pid == p;
        if !(t == c && i == d) { assert s.At(t, i); }
      }
    }
  }

  // A process pushed into a free slot keeps everything, because the slot's
  // video page already points at the screen.
  lemma PushKeepsBase(s: System, n: int)
    requires Base(s) && 1 <= n <= MAX_PCB_NUM && !s.Live(n)
    ensures Base(Pushed(s, NewFrame(n, s.visible)))
  {
    PushedPlaces(s, NewFrame(n, s.visible));
    var s' := Pushed(s, NewFrame(n, s.visible));
    assert s'.Distinct();
    assert FramesOk(s');
  }

  lemma PoppedPlaces(s: System)
    requires s.Shape() && s.Distinct() && s.Active(s.current)
    ensures var c, d := s.current, |s.stacks[s.current]| - 1;
      && s.At(c, d)
      && (forall t, i :: Popped(s).At(t, i) <==> s.At(t, i) && !(t == c && i == d))
      && (forall t, i :: Popped(s).At(t, i) ==> Popped(s).stacks[t][i] == s.stacks[t][i])
      && (forall p :: Popped(s).Live(p) <==> s.Live(p) && p != s.stacks[c][d].pid)
  {
    var c, d := s.current, |s.stacks[s.current]| - 1;
    assert s.At(c, d);
    var s' := Popped(s);
    assert forall t, i :: s'.At(t, i) <==> s.At(t, i) && !(t == c && i == d);
    assert forall t, i :: s'.At(t, i) ==> s'.stacks[t][i] == s.stacks[t][i];
    hide Popped;
    forall p ensures s'.Live(p) <==> s.Live(p) && p != s.stacks[c][d].pid {
      if s.Live(p) && p != s.stacks[c][d].pid {
        var t, i :| s.At(t, i) && s.stacks[t][i].pid == p;
        assert s'.At(t, i);
      }
      if s'.Live(p) {
        var t, i :| s'.At(t, i) && s'.stacks[t][i].pid == p;
        assert s.At(t, i);
      }
    }
  }

  lemma PopKeepsBase(s: System)
    requires Base(s) && s.Active(s.current)
    ensures Base(Popped(s))
  {
    PoppedPlaces(s);
  }

  // ----- Execute -----

  ghost function ParkedSystem(s: System, regs: Regs): System
    requires s.Shape()
  {
    s.(stacks := s.stacks[s.current := Parked(s.stacks[s.current], regs)])
  }

  lemma ExecuteKeeps(s: System, known: bool, regs: Regs)
    requires Base(s) && Resumable(s) && s.started[s.current]
    ensures var (s', o) := Execute(s, known, regs);
      && Base(s') && Resumable(s')
      && (o == Returned(-1) ==> s' == s)
      && (o != Returned(-1) ==> s'.Active(s.current) && o == Entered(s'.Top(s.current).pid) && Loaded(s'))
  {
    hide System.Distinct, FramesOk, Mapped;
    var n := FreeSlot(s);
    var (s', o) := Execute(s, known, regs);
    if known && n != -1 {
      var s1 := ParkedSystem(s, regs);
      SameProcessesKeepBase(s, s1);
      LiveIsKept(s, s1);
      var s2 := Pushed(s1, NewFrame(n, s.visible));
      PushKeepsBase(s1, n);
      assert s' == Load(s2, n);
      SameProcessesKeepBase(s2, s');
    }
  }

  // Where every frame stands when the running process gets a new one.
  lemma RetopPlaces(s: System, f: Frame)
    requires s.Shape() && s.Distinct() && s.Active(s.current) && f.pid == s.Top(s.current).pid
    ensures var s' := Retop(s, f);
      && s'.Shape()
      && (forall t, i :: s'.At(t, i) <==> s.At(t, i))
      && (forall t, i :: s.At(t, i) ==>
            s'.stacks[t][i] == if s.stacks[t][i].pid == f.pid then f else s.stacks[t][i])
      && (forall t :: 0 <= t < TOTAL_TERMINALS ==> (s'.Active(t) <==> s.Active(t)))
      && (forall t :: 0 <= t < TOTAL_TERMINALS && s.Active(t) ==> s'.Top(t).pid == s.Top(t).pid)
  {
    assert s.At(s.current, |s.stacks[s.current]| - 1);
  }

  lemma RetopKeeps(s: System, f: Frame)
    requires s.Shape() && s.Distinct() && s.Active(s.current) && f.pid == s.Top(s.current).pid
    ensures Retop(s, f).Distinct() && forall p :: Retop(s, f).Live(p) == s.Live(p)
  {
    RetopPlaces(s, f);
    var s' := Retop(s, f);
    hide Retop;
    forall p ensures s'.Live(p) == s.Live(p) {
      if s.Live(p) { var t, i :| s.At(t, i) && s.stacks[t][i].pid == p; assert s'.At(t, i); }
      if s'.Live(p) { var t, i :| s'.At(t, i) && s'.stacks[t][i].pid == p; assert s.At(t, i); }
    }
  }

  // ----- Halt -----

  lemma TopIsASlot(s: System)
    requires s.Shape() && s.Distinct() && s.Active(s.current)
    ensures 1 <= s.Top(s.current).pid <= MAX_PCB_NUM
  {
    assert s.At(s.current, |s.stacks[s.current]| - 1);
  }

  lemma HaltKeeps(s: System, status: int)
    requires Inv(s)
    ensures var (s', o) := Halt(s, status);
      && Inv(s')
      && !o.Returned?
      && s'.current == s.current && s'.started == s.started && s'.visible == s.visible
  {
    hide System.Distinct, FramesOk, Mapped;
    TopIsASlot(s);
    var s1 := Popped(s);
    PoppedPlaces(s);
    PopKeepsBase(s);
    if s1.Active(s.current) {
      assert s1.At(s.current, |s1.stacks[s.current]| - 1);
      SameProcessesKeepBase(s1, Halt(s, status).0);
    } else {
      assert !s1.Live(s.Top(s.current).pid);
      ExecuteKeeps(s1, true, Regs(0, 0));
    }
    LoadedIsReady(Halt(s, status).0);
  }

  // ----- Scheduling -----

  // The search stops at the first active terminal after c in cyclic order.
  lemma NextTerminalIsFirst(s: System, c: int)
    requires s.Shape() && 0 <= c < TOTAL_TERMINALS
    ensures var r := NextTerminal(s, c, TOTAL_TERMINALS);
      var a, b := (c + 1) % TOTAL_TERMINALS, (c + 2) % TOTAL_TERMINALS;
      && r == (if s.Active(a) then a else if s.Active(b) then b else c)
  {
    var a := (c + 1) % TOTAL_TERMINALS;
    assert NextTerminal(s, a, 2) == NextTerminal(s, a, 2);
  }

  // With some active terminal and every active terminal resumable, the
  // scheduler takes none of its early exits.
  lemma DispatchResumes(s: System)
    requires s.Shape() && Resumable(s)
    requires s.Active(s.current) ==> s.Top(s.current).sched.Nonzero()
    requires exists t :: 0 <= t < TOTAL_TERMINALS && s.Active(t)
    ensures var c := NextTerminal(s, s.current, TOTAL_TERMINALS);
      s.Active(c) && Dispatch(s) == (Load(s.(current := c), s.Top(c).pid), Resumed(s.Top(c).sched))
  {
    hide NextTerminal;
    NextTerminalIsFirst(s, s.current);
    var c := NextTerminal(s, s.current, TOTAL_TERMINALS);
    assert s.Active(c) && s.Top(c).sched.Nonzero();
    hide Resumable;
  }

  lemma DispatchKeeps(s: System)
    requires Base(s) && Resumable(s)
    requires s.Active(s.current) ==> s.Top(s.current).sched.Nonzero()
    requires exists t :: 0 <= t < TOTAL_TERMINALS && s.Active(t)
    ensures var (s', o) := Dispatch(s);
      && Inv(s')
      && o == Resumed(s'.Top(s'.current).sched)
      && s'.stacks == s.stacks
      && s'.current == NextTerminal(s, s.current, TOTAL_TERMINALS)
  {
    hide System.Distinct, FramesOk, Mapped, NextTerminal, Ready;
    DispatchResumes(s);
    hide Dispatch;
    var s' := Dispatch(s).0;
    SameStacksKeepBase(s, s');
    LoadedIsReady(s');
  }

  lemma PreemptedKeeps(s: System, regs: Regs)
    requires Inv(s) && regs.Nonzero()
    ensures var s' := Preempted(s, regs);
      && Base(s') && Resumable(s') && s'.Active(s'.current) && s'.Top(s'.current).sched == regs
      && SameProcesses(s, s')
  {
    SameProcessesKeepBase(s, Preempted(s, regs));
  }

  lemma TickKeeps(s: System, regs: Regs)
    requires Inv(s) && regs.Nonzero()
    ensures var (s', o) := Tick(s, regs);
      Inv(s') && o == Resumed(s'.Top(s'.current).sched)
  {
    PreemptedKeeps(s, regs);
    DispatchKeeps(Preempted(s, regs));
  }

  // The system in which the launched terminal's execute runs.
  ghost function Launching(s: System, t: int, regs: Regs): System
    requires s.Shape() && s.Active(s.current) && 0 <= t < TOTAL_TERMINALS
  {
    Preempted(s, regs).(started := s.started[t := true], current := t)
  }

  lemma LaunchingKeeps(s: System, t: int, regs: Regs)
    requires Inv(s) && regs.Nonzero() && 0 <= t < TOTAL_TERMINALS && !s.started[t]
    ensures var s1 := Launching(s, t, regs);
      && Base(s1) && Resumable(s1)
      && !s1.Active(t) && s1.Active(s.current) && t != s.current
      && forall p :: s1.Live(p) == s.Live(p)
  {
    hide System.Distinct, FramesOk, Mapped, Ready, Loaded;
    PreemptedKeeps(s, regs);
    LiveIsKept(s, Preempted(s, regs));
    SameStacksKeepBase(Preempted(s, regs), Launching(s, t, regs));
    SameStacksAreLive(Preempted(s, regs), Launching(s, t, regs));
    var p, s1 := Preempted(s, regs), Launching(s, t, regs);
    hide Preempted, Launching;
    forall u | 0 <= u < TOTAL_TERMINALS && s1.Active(u)
      ensures s1.started[u] && (u != s1.current ==> s1.Top(u).sched.Nonzero())
    {
      assert p.Active(u) && p.Top(u) == s1.Top(u);
    }
  }

  lemma SameStacksAreLive(s: System, s': System)
    requires s.Shape() && s'.Shape() && s'.stacks == s.stacks
    ensures forall p :: s'.Live(p) == s.Live(p)
  {
    forall p ensures s'.Live(p) == s.Live(p) {
      if s'.Live(p) { var t, i :| s'.At(t, i) && s'.stacks[t][i].pid == p; assert s.At(t, i); }
      if s.Live(p) { var t, i :| s.At(t, i) && s.stacks[t][i].pid == p; assert s'.At(t, i); }
    }
  }

  lemma ExecuteOnIdle(s: System, regs: Regs)
    requires Base(s) && Resumable(s) && s.started[s.current] && !s.Active(s.current)
    ensures var (s', o) := Execute(s, true, regs);
      if FreeSlot(s) == -1 then s' == s && o == Returned(-1)
      else
        && Inv(s') && o == Entered(FreeSlot(s)) && s'.current == s.current
        && s'.stacks == s.stacks[s.current := [NewFrame(FreeSlot(s), s.visible)]]
  {
    hide System.Distinct, FramesOk, Mapped, Ready;
    ExecuteKeeps(s, true, regs);
    var (s', o) := Execute(s, true, regs);
    if FreeSlot(s) != -1 {
      LoadedIsReady(s');
      assert s'.stacks[s.current] == [NewFrame(FreeSlot(s), s.visible)];
    }
  }

  lemma ExecuteLives(s: System, regs: Regs)
    requires s.Shape() && FreeSlot(s) != -1
    ensures var s' := Execute(s, true, regs).0;
      s'.Shape() && forall p :: s'.Live(p) <==> s.Live(p) || p == FreeSlot(s)
  {
    var s1 := ParkedSystem(s, regs);
    assert SameProcesses(s, s1);
    LiveIsKept(s, s1);
    var f := NewFrame(FreeSlot(s), s.visible);
    PushedPlaces(s1, f);
    SameStacksAreLive(Pushed(s1, f), Execute(s, true, regs).0);
  }

  // Where every frame stands after an execute.
  lemma ExecutePlaces(s: System, regs: Regs)
    requires s.Shape() && FreeSlot(s) != -1
    ensures var s' := Execute(s, true, regs).0;
      var c, d := s.current, |s.stacks[s.current]|;
      && s'.Shape()
      && (forall t, i :: s'.At(t, i) <==> s.At(t, i) || (t == c && i == d))
      && s'.stacks[c][d] == NewFrame(FreeSlot(s), s.visible)
      && (forall t, i :: s.At(t, i) ==>
            s'.stacks[t][i] == if t == c && i == d - 1 then s.stacks[t][i].(saved := regs) else s.stacks[t][i])
  {
    hide FreeSlot;
  }

  lemma ExecuteSettings(s: System, regs: Regs)
    requires s.Shape() && FreeSlot(s) != -1
    ensures var s' := Execute(s, true, regs).0;
      s' == Load(s, FreeSlot(s)).(stacks := s'.stacks) && s'.Shape()
  {
    hide FreeSlot;
  }

  lemma ExecuteDistinct(s: System, regs: Regs)
    requires s.Shape() && s.Distinct() && FreeSlot(s) != -1
    ensures Execute(s, true, regs).0.Distinct()
  {
    ExecutePlaces(s, regs);
    var s' := Execute(s, true, regs).0;
    hide Execute;
    forall t, i | s.At(t, i) ensures s.stacks[t][i].pid != FreeSlot(s) { assert s.Live(s.stacks[t][i].pid); }
  }

  // A launch enters a shell exactly when a slot is free; on a full table the
  // scheduler goes on to the next active terminal instead.
  lemma LaunchKeeps(s: System, t: int, regs: Regs)
    requires Inv(s) && regs.Nonzero() && 0 <= t < TOTAL_TERMINALS && !s.started[t]
    ensures var (s', o) := Launch(s, t, regs);
      && Inv(s')
      && (o.Entered? || o.Resumed?)
      && (o.Entered? <==> FreeSlot(s) != -1)
      && (if o.Entered?
          then !s.Live(o.pid) && s'.current == t && s'.stacks == Launching(s, t, regs).stacks[t := [NewFrame(o.pid, s.visible)]]
          else s'.stacks == Launching(s, t, regs).stacks)
  {
    hide System.Distinct, FramesOk, Mapped, Loaded, Resumable, Dispatch;
    LaunchingKeeps(s, t, regs);
    var s1 := Launching(s, t, regs);
    ExecuteOnIdle(s1, regs);
    var (s2, o) := Execute(s1, true, regs);
    assert Execute(s1, true, regs) == Launch(s, t, regs) || Dispatch(s2) == Launch(s, t, regs);
    if o == Returned(-1) {
      DispatchKeeps(s2);
    }
  }

  // Halting a process that has a parent uncovers the parent.
  lemma HaltOfAChild(s: System, status: int)
    requires Inv(s) && |s.stacks[s.current]| > 1
    ensures var (s', o) := Halt(s, status);
      var d := |s.stacks[s.current]| - 1;
      && s.At(s.current, d)
      && s'.current == s.current
      && s'.stacks == s.stacks[s.current := s.stacks[s.current][..d]]
      && o == Exited(s.stacks[s.current][d - 1].saved, status)
  {
    hide System.Distinct, FramesOk, Mapped, Resumable, Execute;
  }

  lemma PopKeepsResumable(s: System)
    requires Inv(s)
    ensures Resumable(Popped(s)) && Popped(s).started[s.current]
  {
    hide System.Distinct, FramesOk, Mapped;
  }

  // Halting a terminal's first process leaves a fresh shell in its place.
  lemma HaltOfARoot(s: System, status: int)
    requires Inv(s) && |s.stacks[s.current]| == 1
    ensures var (s', o) := Halt(s, status);
      && o.Entered? && s'.current == s.current
      && s'.stacks == s.stacks[s.current := [NewFrame(o.pid, s.visible)]]
      && forall t, i :: s.At(t, i) && t != s.current ==> s.stacks[t][i].pid != o.pid
  {
    hide System.Distinct, FramesOk, Mapped, Loaded, Resumable;
    var s1 := Popped(s);
    PoppedPlaces(s);
    PopKeepsBase(s);
    PopKeepsResumable(s);
    assert s1.stacks[s.current] == [];
    assert !s1.Live(s.Top(s.current).pid);
    hide FreeFrom;
    ExecuteOnIdle(s1, Regs(0, 0));
    forall t, i | s.At(t, i) && t != s.current ensures s.stacks[t][i].pid != FreeSlot(s1) {
      assert s1.At(t, i) && s1.Live(s1.stacks[t][i].pid);
    }
  }

  // ----- Terminal switch -----

  lemma RemappedLive(s: System, prev: int, next: int, t: int, i: int)
    requires |s.page0| == TASK_NUMBER && s.Distinct() && s.At(t, i)
    ensures var f := s.stacks[t][i];
      && 1 <= f.pid <= MAX_PCB_NUM
      && Remapped(s, prev, next)[f.pid - 1] ==
           if f.terminal == next then VIDEO_FRAME
           else if f.terminal == prev then BackingFrame(prev)
           else s.page0[f.pid - 1]
  {
    var pid := s.stacks[t][i].pid;
    assert 1 <= pid <= MAX_PCB_NUM;
    assert forall u, j :: s.At(u, j) && s.stacks[u][j].pid == pid ==> u == t && j == i;
    hide System.Distinct;
  }

  lemma RemappedFree(s: System, prev: int, next: int, k: int)
    requires |s.page0| == TASK_NUMBER && 0 <= k < TASK_NUMBER && !s.Live(k + 1)
    ensures Remapped(s, prev, next)[k] == s.page0[k]
  {
  }

  lemma RemapKeepsBase(s: System, t: int)
    requires Base(s) && 0 <= t < TOTAL_TERMINALS && t != s.visible
    ensures Base(s.(page0 := Remapped(s, s.visible, t), visible := t))
  {
    hide Remapped;
    var s' := s.(page0 := Remapped(s, s.visible, t), visible := t);
    SameStacksAreLive(s, s');
    SameStacksAreOk(s, s');
    forall u, i | s.At(u, i) ensures s'.page0[s.stacks[u][i].pid - 1] == FrameFor(s.stacks[u][i].terminal, t) {
      RemappedLive(s, s.visible, t, u, i);
    }
    forall p | 1 <= p <= TASK_NUMBER && !s.Live(p) ensures s'.page0[p - 1] == VIDEO_FRAME {
      RemappedFree(s, s.visible, t, p - 1);
    }
    hide System.Distinct, FramesOk;
    forall u, i ensures s'.At(u, i) <==> s.At(u, i) {}
  }

  lemma SameStacksAreOk(s: System, s': System)
    requires s.Shape() && s'.Shape() && s'.stacks == s.stacks && s.Distinct() && FramesOk(s)
    ensures s'.Distinct() && FramesOk(s')
  {
    forall u, i ensures s'.At(u, i) <==> s.At(u, i) {}
  }

  lemma SwitchKeeps(s: System, t: int, regs: Regs)
    requires Inv(s) && regs.Nonzero() && 0 <= t < TOTAL_TERMINALS
    ensures Inv(Switch(s, t, regs).0)
    ensures Switch(s, t, regs).1 != Returned(-1)
  {
    hide System.Distinct, FramesOk, Mapped, Launch, Remapped;
    if t != s.visible {
      RemapKeepsBase(s, t);
      if !s.started[t] {
        LaunchKeeps(s.(page0 := Remapped(s, s.visible, t), visible := t), t, regs);
      }
    }
  }

  // Only a switch changes what is on the screen.
  lemma VisibleAfter(s: System, e: Event)
    requires Inv(s) && e.Ok()
    ensures Step(s, e).0.visible == if e.SwitchKey? then e.terminal else s.visible
  {
    hide System.Distinct, FramesOk, Mapped, Loaded, Resumable, NextTerminal, Remapped, FreeSlot;
    match e
    case HaltCall(status) => HaltKeeps(s, status);
    case _ =>
  }

  // ----- Descriptors -----

  lemma OpenKeepsFiles(files: seq<File>, found: Option<Dentry>)
    requires FilesOk(files) && OpenCall(found).Ok()
    ensures var (files', fd) := OpenFile(files, found);
      && FilesOk(files')
      && (fd == -1 <==> found == None || forall i :: FD_START <= i < PCB_FILE_NUMBER ==> files[i] != Unused)
      && (fd == -1 ==> files' == files)
      && (fd != -1 ==>
            && FD_START <= fd < PCB_FILE_NUMBER && files[fd] == Unused
            && (forall i :: FD_START <= i < fd ==> files[i] != Unused)
            && files' == files[fd := files'[fd]]
            && files'[fd].InUse? && files'[fd].kind == found.value.kind && files'[fd].filePos == 0)
  {
    var i := FirstUnused(files, FD_START);
    assert i < PCB_FILE_NUMBER ==> files[i] == Unused;
  }

  // Closing is the inverse of opening, and refuses what was not opened.
  lemma CloseUndoesOpen(files: seq<File>, found: Option<Dentry>, fd: int)
    requires FilesOk(files) && OpenCall(found).Ok()
    ensures FilesOk(CloseFile(files, fd).0)
    ensures CloseFile(files, fd).1 == -1 ==> CloseFile(files, fd).0 == files
    ensures CloseFile(files, fd).1 == 0 <==> FD_START <= fd < PCB_FILE_NUMBER && files[fd] != Unused
    ensures var (files', r) := OpenFile(files, found);
      r != -1 ==> CloseFile(files', r) == (files, 0)
  {
    OpenKeepsFiles(files, found);
    var (files', r) := OpenFile(files, found);
    if r != -1 { assert files'[r := Unused] == files; }
  }

  // A read moves the position of one descriptor.
  lemma ReadKeepsFiles(files: seq<File>, fd: int, reply: Reply)
    requires FilesOk(files) && (reply.result == -1 ==> reply.advance == 0)
    ensures FilesOk(ReadThrough(files, fd, reply).0)
    ensures ReadThrough(files, fd, reply).1 == -1 ==> ReadThrough(files, fd, reply).0 == files
  {
    if Open(files, fd) && reply.advance == 0 { assert files[fd].(filePos := files[fd].filePos + 0) == files[fd]; }
  }

  lemma NewFilesKeepInv(s: System, files: seq<File>)
    requires Inv(s) && FilesOk(files)
    ensures Inv(WithFiles(s, files))
  {
    NewFilesFrames(s, files);
    NewFilesMapped(s, files);
    hide System.Distinct, FramesOk, Mapped;
  }

  lemma NewFilesFrames(s: System, files: seq<File>)
    requires Inv(s) && FilesOk(files)
    ensures var s' := WithFiles(s, files); s'.Shape() && s'.Distinct() && FramesOk(s')
  {
    var f := s.Top(s.current).(files := files);
    RetopKeeps(s, f);
    RetopPlaces(s, f);
    assert s.At(s.current, |s.stacks[s.current]| - 1);
    hide Retop, FilesOk, Mapped, Resumable, Loaded, System.Distinct;
  }

  lemma NewFilesMapped(s: System, files: seq<File>)
    requires Inv(s) && WithFiles(s, files).Shape() && WithFiles(s, files).Distinct()
    ensures Mapped(WithFiles(s, files))
  {
    hide FilesOk, FramesOk, Resumable, Loaded;
    LiveWithFiles(s, files);
    var s' := WithFiles(s, files);
    forall t, i | s'.At(t, i)
      ensures s.At(t, i) && s'.stacks[t][i].pid == s.stacks[t][i].pid && s'.stacks[t][i].terminal == s.stacks[t][i].terminal
    {
    }
  }

  lemma LiveWithFiles(s: System, files: seq<File>)
    requires s.Shape() && s.Active(s.current)
    ensures forall p :: WithFiles(s, files).Live(p) == s.Live(p)
  {
    var s' := WithFiles(s, files);
    forall p ensures s'.Live(p) == s.Live(p) {
      if s.Live(p) {
        var t, i :| s.At(t, i) && s.stacks[t][i].pid == p;
        assert s'.At(t, i);
      }
      if s'.Live(p) {
        var t, i :| s'.At(t, i) && s'.stacks[t][i].pid == p;
        assert s.At(t, i);
      }
    }
  }

  // ----- All steps -----

  // The invariant is inductive, and only a call that fails returns -1: the
  // exits of the scheduler that abandon a half-made switch are never taken.
  lemma StepKeeps(s: System, e: Event)
    requires Inv(s) && e.Ok()
    ensures var (s', o) := Step(s, e);
      && Inv(s')
      && (o == Returned(-1) ==> (e.ExecuteCall? || e.OpenCall? || e.CloseCall? || e.ReadCall?) && s' == s)
  {
    hide System.Distinct, FramesOk, Mapped;
    match e
    case ExecuteCall(known, regs) =>
      ExecuteKeeps(s, known, regs);
      LoadedIsReady(Execute(s, known, regs).0);
    case HaltCall(status) => HaltKeeps(s, status);
    case TimerTick(regs) => TickKeeps(s, regs);
    case SwitchKey(t, regs) => SwitchKeeps(s, t, regs);
    case OpenCall(found) =>
      TopFilesOk(s);
      OpenKeepsFiles(s.Top(s.current).files, found);
      NewFilesKeepInv(s, OpenFile(s.Top(s.current).files, found).0);
      SameFiles(s);
    case CloseCall(fd) =>
      TopFilesOk(s);
      CloseUndoesOpen(s.Top(s.current).files, None, fd);
      NewFilesKeepInv(s, CloseFile(s.Top(s.current).files, fd).0);
      SameFiles(s);
    case ReadCall(fd, _, reply) =>
      TopFilesOk(s);
      ReadKeepsFiles(s.Top(s.current).files, fd, reply);
      NewFilesKeepInv(s, ReadThrough(s.Top(s.current).files, fd, reply).0);
      SameFiles(s);
  }

  lemma TopFilesOk(s: System)
    requires Inv(s)
    ensures FilesOk(s.Top(s.current).files)
  {
    assert s.At(s.current, |s.stacks[s.current]| - 1);
  }

  lemma SameFiles(s: System)
    requires s.Shape() && s.Active(s.current)
    ensures WithFiles(s, s.Top(s.current).files) == s
  {
    var c := s.current;
    assert WithTop(s.stacks[c], s.Top(c).(files := s.Top(c).files)) == s.stacks[c];
    assert s.stacks[c := s.stacks[c]] == s.stacks;
  }
}
