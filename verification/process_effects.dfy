// What every event does to the whole state, and what a process finds when it
// starts, in plain terms: the fields that change, and nothing else.
module ProcessEffects {
  import opened Types
  import opened ProcessModel
  import opened ProcessSafety
  import opened ProcessRuns
  import opened ProcessFairness

  // A new process: nothing parked, nothing saved by the scheduler, standard
  // input and output open and nothing else.
  ghost predicate Fresh(f: Frame, pid: int, terminal: int) {
    && f.pid == pid && f.terminal == terminal
    && f.saved == Regs(0, 0) && f.sched == Regs(0, 0)
    && |f.files| == 8
    && f.files[0] == InUse(Stdin, 0, 0) && f.files[1] == InUse(Stdout, 0, 0)
    && forall fd :: 2 <= fd < 8 ==> f.files[fd] == Unused
  }

  // The frame on top of the scheduled stack is fresh.
  ghost predicate StartsFresh(s: System, pid: int, terminal: int) {
    s.Shape() && s.Active(s.current) && Fresh(s.Top(s.current), pid, terminal)
  }

  lemma NewFrameIsFresh(pid: int, terminal: int)
    ensures Fresh(NewFrame(pid, terminal), pid, terminal)
  {
  }

  // execute enters a program exactly when the command is known and one of the
  // six slots is free; it takes the lowest free slot and stays on its terminal.
  lemma ExecuteStartsFresh(s: System, known: bool, regs: Regs)
    requires Inv(s) && regs.Nonzero()
    ensures var (s', o) := Step(s, ExecuteCall(known, regs));
      && (if known && exists p :: 1 <= p <= 6 && !s.Live(p)
          then o.Entered? && 1 <= o.pid <= 6 && !s.Live(o.pid) && forall p :: 1 <= p < o.pid ==> s.Live(p)
          else o == Returned(-1) && s' == s)
      && (o.Entered? ==> s'.current == s.current && StartsFresh(s', o.pid, s.visible))
  {
    hide System.Distinct, FramesOk, Mapped, Resumable, Loaded;
    NewFrameIsFresh(FreeSlot(s), s.visible);
    hide NewFrame;
  }

  // The shell that replaces a halted first process.
  lemma HaltRestartsFresh(s: System, status: int)
    requires Inv(s) && |s.stacks[s.current]| == 1
    ensures var (s', o) := Step(s, HaltCall(status));
      o.Entered? && s'.current == s.current && StartsFresh(s', o.pid, s.visible)
  {
    hide System.Distinct, FramesOk, Mapped, Resumable, Loaded, Halt;
    HaltOfARoot(s, status);
    HaltKeeps(s, status);
    NewFrameIsFresh(Halt(s, status).1.pid, s.visible);
    hide NewFrame;
  }

  // The shell of a terminal that is switched to for the first time.
  lemma LaunchStartsFresh(s: System, t: int, regs: Regs)
    requires Inv(s) && SwitchKey(t, regs).Ok()
    ensures var (s', o) := Step(s, SwitchKey(t, regs));
      o.Entered? ==> s'.current == t && s'.visible == t && StartsFresh(s', o.pid, t)
  {
    hide System.Distinct, FramesOk, Mapped, Resumable, Loaded, Switch;
    SwitchStacks(s, t, regs);
    SwitchKeeps(s, t, regs);
    VisibleAfter(s, SwitchKey(t, regs));
    if Switch(s, t, regs).1.Entered? { NewFrameIsFresh(Switch(s, t, regs).1.pid, t); }
    hide NewFrame;
  }

  // A fresh process opens descriptor 2 first, and everything from 2 on is
  // refused before.
  lemma FreshDescriptors(f: Frame, pid: int, terminal: int, d: Dentry, fd: int, reply: Reply)
    requires Fresh(f, pid, terminal) && fd >= 2
    ensures OpenFile(f.files, Some(d)).1 == 2 && OpenFile(f.files, None) == (f.files, -1)
    ensures ReadThrough(f.files, fd, reply) == (f.files, -1) && CloseFile(f.files, fd) == (f.files, -1)
  {
    var i := FirstUnused(f.files, 2);
    assert f.files[2] == Unused;
  }

  // open and close, in numbers, for any descriptor table.
  lemma DescriptorsInNumbers(files: seq<File>, d: Dentry, fd: int)
    requires FilesOk(files)
    ensures 2 <= fd < 8 && files[fd] == Unused && (forall i :: 2 <= i < fd ==> files[i] != Unused) ==>
      OpenFile(files, Some(d)) == (files[fd := InUse(d.kind, if d.kind == Regular then d.inode else 0, 0)], fd)
    ensures (forall i :: 2 <= i < 8 ==> files[i] != Unused) ==> OpenFile(files, Some(d)) == (files, -1)
    ensures OpenFile(files, None) == (files, -1)
    ensures CloseFile(files, fd) == if 2 <= fd < 8 && files[fd] != Unused then (files[fd := Unused], 0) else (files, -1)
  {
    var i := FirstUnused(files, 2);
    assert 2 <= fd < 8 && files[fd] == Unused ==> i <= fd;
  }

  // In every state of a run: three terminals, and the processor set to the
  // running process: the page directory of its slot, its 8 KB kernel stack
  // below 8 MB, and its output on the screen at 0xB8000 or on the page behind
  // it that belongs to its terminal.
  lemma ProcessorInNumbers(s: System)
    requires Inv(s)
    ensures |s.stacks| == |s.started| == 3 && |s.page0| == 10
    ensures var f := s.Top(s.current);
      && 1 <= f.pid <= 6 && 0 <= f.terminal < 3
      && s.cr3 == f.pid - 1
      && s.esp0 == 0x7FFFFF - 0x2000 * (f.pid - 1)
      && s.page0[s.cr3] == if f.terminal == s.visible then 0xB8 else 0xB9 + f.terminal
  {
    assert s.At(s.current, |s.stacks[s.current]| - 1);
  }

  // ----- The effect of each event on the whole state -----

  // The processor is set to the process in slot pid.
  function Set(s: System, pid: int): System {
    s.(cr3 := pid - 1, esp0 := 0x7FFFFF - 0x2000 * (pid - 1))
  }

  // The scheduled stack is replaced.
  function WithStack(s: System, stack: seq<Frame>): System
    requires s.Shape()
  {
    s.(stacks := s.stacks[s.current := stack])
  }

  // execute parks its registers in the caller and puts the new process above it.
  lemma ExecuteEffect(s: System, known: bool, regs: Regs)
    requires Inv(s) && regs.Nonzero()
    ensures var (s', o) := Step(s, ExecuteCall(known, regs));
      var st := s.stacks[s.current];
      var d := |st| - 1;
      o.Entered? ==>
        && s'.Shape() && s'.Active(s.current)
        && s' == Set(WithStack(s, st[..d] + [st[d].(saved := regs), s'.Top(s.current)]), o.pid)
  {
    hide System.Distinct, FramesOk, Mapped, Resumable, Loaded, FreeSlot, NewFrame;
    var st := s.stacks[s.current];
    var d, n := |st| - 1, FreeSlot(s);
    if known && n != -1 {
      assert Parked(st, regs) + [NewFrame(n, s.visible)] == st[..d] + [st[d].(saved := regs), NewFrame(n, s.visible)];
    }
  }

  // halt removes the process, gives its slot's output back to the screen, and
  // goes on in the parent or in a fresh shell.
  lemma HaltEffect(s: System, status: int)
    requires Inv(s)
    ensures var (s', o) := Step(s, HaltCall(status));
      var st := s.stacks[s.current];
      var d := |st| - 1;
      var freed := s.(page0 := s.page0[st[d].pid - 1 := 0xB8]);
      if d > 0 then
        s' == Set(WithStack(freed, st[..d]), st[d - 1].pid) && o == Exited(st[d - 1].saved, status)
      else
        && o.Entered? && s'.Shape() && s'.Active(s.current)
        && s' == Set(WithStack(freed, [s'.Top(s.current)]), o.pid)
  {
    hide System.Distinct, FramesOk, Mapped, Resumable, Loaded, FreeSlot, NewFrame;
    if |s.stacks[s.current]| == 1 { HaltOfARoot(s, status); }
  }

  // A tick stores the registers and goes to the first active terminal after
  // the current one.
  lemma TickEffect(s: System, regs: Regs)
    requires Inv(s) && regs.Nonzero()
    ensures var (s', o) := Step(s, TimerTick(regs));
      var st := s.stacks[s.current];
      var d := |st| - 1;
      var a, b := (s.current + 1) % 3, (s.current + 2) % 3;
      var next := if s.Active(a) then a else if s.Active(b) then b else s.current;
      && s'.Shape() && s'.Active(next)
      && s' == Set(WithStack(s, st[d := st[d].(sched := regs)]).(current := next), s'.Top(next).pid)
      && o == Resumed(s'.Top(next).sched)
  {
    TickGoesToNext(s, regs);
    TickKeeps(s, regs);
    hide System.Distinct, FramesOk, Mapped, Resumable, Loaded, NextTerminal;
  }

  // The output pages, by the recorded terminals.
  ghost predicate PagesByRecord(s: System) {
    && |s.page0| == 10
    && (forall t, i :: s.At(t, i) ==>
          && 1 <= s.stacks[t][i].pid <= 6
          && s.page0[s.stacks[t][i].pid - 1] ==
               if s.stacks[t][i].terminal == s.visible then 0xB8 else 0xB9 + s.stacks[t][i].terminal)
    && (forall p :: 1 <= p <= 10 && !s.Live(p) ==> s.page0[p - 1] == 0xB8)
  }

  lemma PagesInNumbers(s: System)
    requires Inv(s)
    ensures PagesByRecord(s)
  {
    hide FramesOk, Resumable, Loaded;
  }

  // A switch changes what is on the screen and the output pages. The first
  // one to a terminal also stores the registers of the running process, marks
  // the terminal, and starts a shell on it; with no free slot it goes to the
  // first active terminal after it instead.
  lemma SwitchEffect(s: System, t: int, regs: Regs)
    requires Inv(s) && SwitchKey(t, regs).Ok()
    ensures var (s', o) := Step(s, SwitchKey(t, regs));
      && s'.Shape() && PagesByRecord(s') && s'.visible == t
      && (t == s.visible ==> s' == s && o == Returned(0))
      && (t != s.visible && s.started[t] ==> s' == s.(visible := t, page0 := s'.page0) && o == Returned(0))
      && (t != s.visible && !s.started[t] ==>
            var st := s.stacks[s.current];
            var d := |st| - 1;
            var left := WithStack(s, st[d := st[d].(sched := regs)]).stacks;
            && s'.started == s.started[t := true] && s'.Active(s'.current)
            && s'.cr3 == s'.Top(s'.current).pid - 1 && s'.esp0 == 0x7FFFFF - 0x2000 * s'.cr3
            && (if o.Entered? then s'.current == t && s'.stacks == left[t := [s'.Top(t)]]
                else s'.stacks == left && o == Resumed(s'.Top(s'.current).sched)))
  {
    SwitchIsStep(s, t, regs);
    SwitchShows(s, t, regs);
    if t != s.visible && !s.started[t] {
      hide *;
      LaunchEffect(s, t, regs);
    } else {
      hide System.Distinct, FramesOk, Mapped, Resumable, Loaded, Launch, Remapped, PagesByRecord;
    }
  }

  lemma SwitchIsStep(s: System, t: int, regs: Regs)
    requires Inv(s) && SwitchKey(t, regs).Ok()
    ensures Step(s, SwitchKey(t, regs)) == Switch(s, t, regs)
  {
    hide Switch;
  }

  lemma SwitchShows(s: System, t: int, regs: Regs)
    requires Inv(s) && SwitchKey(t, regs).Ok()
    ensures var s' := Switch(s, t, regs).0; s'.Shape() && PagesByRecord(s') && s'.visible == t
  {
    SwitchIsStep(s, t, regs);
    SwitchKeeps(s, t, regs);
    VisibleAfter(s, SwitchKey(t, regs));
    PagesInNumbers(Switch(s, t, regs).0);
    hide Switch, Step, PagesByRecord, System.Distinct, FramesOk, Mapped, Resumable, Loaded;
  }

  lemma LaunchEffect(s: System, t: int, regs: Regs)
    requires Inv(s) && SwitchKey(t, regs).Ok() && t != s.visible && !s.started[t]
    ensures var (s', o) := Switch(s, t, regs);
      var st := s.stacks[s.current];
      var d := |st| - 1;
      var left := WithStack(s, st[d := st[d].(sched := regs)]).stacks;
      && s'.Shape() && s'.started == s.started[t := true] && s'.Active(s'.current)
      && s'.cr3 == s'.Top(s'.current).pid - 1 && s'.esp0 == 0x7FFFFF - 0x2000 * s'.cr3
      && (if o.Entered? then s'.current == t && s'.stacks == left[t := [s'.Top(t)]]
          else s'.stacks == left && o == Resumed(s'.Top(s'.current).sched))
  {
    hide System.Distinct, FramesOk, Mapped, Resumable, Switch, Remapped;
    SwitchResumes(s, t, regs);
    SwitchStarts(s, t, regs);
    SwitchStacks(s, t, regs);
  }

  lemma SwitchResumes(s: System, t: int, regs: Regs)
    requires Inv(s) && SwitchKey(t, regs).Ok() && t != s.visible && !s.started[t]
    ensures var (s', o) := Switch(s, t, regs);
      Inv(s') && (o.Entered? || o == Resumed(s'.Top(s'.current).sched))
  {
    hide System.Distinct, FramesOk, Mapped, Remapped, Dispatch;
    var s0 := s.(page0 := Remapped(s, s.visible, t), visible := t);
    SwitchKeeps(s, t, regs);
    RemapKeepsBase(s, t);
    LaunchingKeeps(s0, t, regs);
    var s1 := Launching(s0, t, regs);
    ExecuteOnIdle(s1, regs);
    if Execute(s1, true, regs).1 == Returned(-1) { DispatchKeeps(s1); }
  }

  // open, close and read change the running process's descriptors only.
  lemma CallEffect(s: System, e: Event)
    requires Inv(s) && e.Ok() && (e.OpenCall? || e.CloseCall? || e.ReadCall?)
    ensures var (s', o) := Step(s, e);
      var st := s.stacks[s.current];
      var d := |st| - 1;
      && o.Returned? && s'.Shape() && s'.Active(s.current)
      && s' == WithStack(s, st[d := st[d].(files := s'.Top(s.current).files)])
  {
    hide System.Distinct, FramesOk, Mapped, Resumable, Loaded;
  }
}
