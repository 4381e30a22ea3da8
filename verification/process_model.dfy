// The process side of the kernel as three stacks of frames, one stack for each
// terminal: the youngest process of a terminal is the top of its stack. The
// slot table, the parent pointers and the pcb_num array do not appear here;
// ProcessTable shows that the real table is a packing of these stacks.
module ProcessModel {
  import opened Types

  // A kernel stack pointer and frame pointer. The values are opaque.
  datatype Regs = Regs(esp: nat, ebp: nat) {
    predicate Nonzero() { esp != 0 && ebp != 0 }
  }

  datatype Kind = Stdin | Stdout | Rtc | Directory | Regular

  datatype File = Unused | InUse(kind: Kind, inode: int, filePos: nat)

  // What a directory lookup tells open about a name.
  datatype Dentry = Dentry(kind: Kind, inode: nat)

  // What the read operation of a descriptor does: the value it returns, how
  // far it moves the file position, and the bytes it stores.
  datatype Reply = Reply(result: int, advance: nat, bytes: seq<Byte>)

  datatype Frame = Frame(pid: int, terminal: int, saved: Regs, sched: Regs, files: seq<File>)

  datatype System = System(
    stacks: seq<seq<Frame>>,
    current: int,          // current_terminal: the scheduled terminal
    visible: int,          // terminal_number: the terminal on the screen
    started: seq<bool>,    // run_shell
    esp0: int,             // tss.esp0
    cr3: int,              // task index of the loaded page directory
    page0: seq<int>)       // frame of user video page 0, for each task
  {
    ghost predicate Shape() {
      && |stacks| == TOTAL_TERMINALS && |started| == TOTAL_TERMINALS && |page0| == TASK_NUMBER
      && 0 <= current < TOTAL_TERMINALS && 0 <= visible < TOTAL_TERMINALS
    }

    predicate Active(t: int)
      requires |stacks| == TOTAL_TERMINALS && 0 <= t < TOTAL_TERMINALS
    {
      stacks[t] != []
    }

    function Top(t: int): Frame
      requires |stacks| == TOTAL_TERMINALS && 0 <= t < TOTAL_TERMINALS && Active(t)
    {
      stacks[t][|stacks[t]| - 1]
    }

    ghost predicate At(t: int, i: int) {
      0 <= t < |stacks| && 0 <= i < |stacks[t]|
    }

    ghost predicate Live(pid: int) {
      exists t, i :: At(t, i) && stacks[t][i].pid == pid
    }

    // Every pid is a slot number and belongs to one stack position only.
    ghost predicate Distinct() {
      && (forall t, i :: At(t, i) ==> 1 <= stacks[t][i].pid <= MAX_PCB_NUM)
      && (forall t, i, u, j :: At(t, i) && At(u, j) && stacks[t][i].pid == stacks[u][j].pid ==> t == u && i == j)
    }
  }

  // ----- Slot allocation -----

  // The first free slot number at or above n, or -1.
  ghost function FreeFrom(s: System, n: int): (r: int)
    requires 1 <= n <= MAX_PCB_NUM + 1
    ensures r == -1 <==> forall p :: n <= p <= MAX_PCB_NUM ==> s.Live(p)
    ensures r != -1 ==> n <= r <= MAX_PCB_NUM && !s.Live(r) && forall p :: n <= p < r ==> s.Live(p)
    decreases MAX_PCB_NUM - n
  {
    if n > MAX_PCB_NUM then -1
    else if !s.Live(n) then n
    else FreeFrom(s, n + 1)
  }

  ghost function FreeSlot(s: System): int { FreeFrom(s, 1) }

  // ----- The atomic steps -----

  datatype Outcome =
    | Returned(value: int)   // the call returns to its caller
    | Entered(pid: int)      // control enters a fresh program
    | Resumed(regs: Regs)    // control continues on a saved kernel stack
    | Exited(regs: Regs, status: int)   // execute returns to the parent with the child's status

  function FreshFiles(): seq<File> {
    [InUse(Stdin, 0, 0), InUse(Stdout, 0, 0), Unused, Unused, Unused, Unused, Unused, Unused]
  }

  function NewFrame(pid: int, terminal: int): Frame {
    Frame(pid, terminal, Regs(0, 0), Regs(0, 0), FreshFiles())
  }

  function WithTop(stack: seq<Frame>, f: Frame): seq<Frame>
    requires stack != []
  {
    stack[|stack| - 1 := f]
  }

  // The caller's stack once its registers are parked, if there is a caller.
  function Parked(stack: seq<Frame>, regs: Regs): (r: seq<Frame>)
    ensures |r| == |stack|
  {
    if stack == [] then [] else WithTop(stack, stack[|stack| - 1].(saved := regs))
  }

  ghost function Load(s: System, pid: int): System {
    s.(cr3 := pid - 1, esp0 := Esp0(pid))
  }

  ghost function Execute(s: System, known: bool, regs: Regs): (System, Outcome)
    requires s.Shape()
  {
    var n := FreeSlot(s);
    if !known || n == -1 then (s, Returned(-1))
    else
      var stack := Parked(s.stacks[s.current], regs) + [NewFrame(n, s.visible)];
      (Load(s.(stacks := s.stacks[s.current := stack]), n), Entered(n))
  }

  // The terminated process leaves its stack and its video page is restored.
  ghost function Popped(s: System): System
    requires s.Shape() && s.Active(s.current) && 1 <= s.Top(s.current).pid <= MAX_PCB_NUM
  {
    var stack := s.stacks[s.current];
    s.(stacks := s.stacks[s.current := stack[..|stack| - 1]],
       page0 := s.page0[s.Top(s.current).pid - 1 := VIDEO_FRAME])
  }

  ghost function Halt(s: System, status: int): (System, Outcome)
    requires s.Shape() && s.Active(s.current) && 1 <= s.Top(s.current).pid <= MAX_PCB_NUM
  {
    var s1 := Popped(s);
    if !s1.Active(s.current) then Execute(s1, true, Regs(0, 0))
    else (Load(s1, s1.Top(s.current).pid), Exited(s1.Top(s.current).saved, status))
  }

  // The terminal the search loop of the scheduler stops at: it advances once,
  // and then again while the terminal has no process and tries remain.
  function NextTerminal(s: System, c: int, tries: nat): (r: int)
    requires s.Shape() && 0 <= c < TOTAL_TERMINALS && tries > 0
    ensures 0 <= r < TOTAL_TERMINALS
    decreases tries
  {
    var d := (c + 1) % TOTAL_TERMINALS;
    if tries == 1 || s.Active(d) then d else NextTerminal(s, d, tries - 1)
  }

  // The scheduled terminal's youngest process gets a new frame.
  function Retop(s: System, f: Frame): System
    requires s.Shape() && s.Active(s.current)
  {
    s.(stacks := s.stacks[s.current := WithTop(s.stacks[s.current], f)])
  }

  function Preempted(s: System, regs: Regs): System
    requires s.Shape() && s.Active(s.current)
  {
    Retop(s, s.Top(s.current).(sched := regs))
  }

  ghost function Dispatch(s: System): (System, Outcome)
    requires s.Shape()
  {
    var s1 := s.(current := NextTerminal(s, s.current, TOTAL_TERMINALS));
    if !s1.Active(s1.current) || !s1.Top(s1.current).sched.Nonzero() then (s1, Returned(-1))
    else (Load(s1, s1.Top(s1.current).pid), Resumed(s1.Top(s1.current).sched))
  }

  ghost function Tick(s: System, regs: Regs): (System, Outcome)
    requires s.Shape()
  {
    if !s.Active(s.current) then (s, Returned(-1)) else Dispatch(Preempted(s, regs))
  }

  // First launch of a terminal: its shell, or the next active terminal when no slot is free.
  ghost function Launch(s: System, t: int, regs: Regs): (System, Outcome)
    requires s.Shape() && 0 <= t < TOTAL_TERMINALS
  {
    if !s.Active(s.current) then (s, Returned(-1))
    else
      var s1 := Preempted(s, regs).(started := s.started[t := true], current := t);
      var (s2, o) := Execute(s1, true, regs);
      if o.Entered? then (s2, o) else Dispatch(s2)
  }

  // ----- The video page of each process -----

  function BackingFrame(t: int): int { VIDEO_FRAME + t + 1 }

  // Where the output of a process recorded for terminal t has to go.
  function FrameFor(t: int, visible: int): int {
    if t == visible then VIDEO_FRAME else BackingFrame(t)
  }

  ghost function Remapped(s: System, prev: int, next: int): (r: seq<int>)
    requires |s.page0| == TASK_NUMBER
    ensures |r| == TASK_NUMBER
  {
    seq(TASK_NUMBER, k requires 0 <= k < TASK_NUMBER =>
      if exists t, i :: s.At(t, i) && s.stacks[t][i].pid == k + 1 && s.stacks[t][i].terminal == next then VIDEO_FRAME
      else if exists t, i :: s.At(t, i) && s.stacks[t][i].pid == k + 1 && s.stacks[t][i].terminal == prev then BackingFrame(prev)
      else s.page0[k])
  }

  // Alt+F(t+1).
  ghost function Switch(s: System, t: int, regs: Regs): (System, Outcome)
    requires s.Shape() && 0 <= t < TOTAL_TERMINALS
  {
    if t == s.visible then (s, Returned(0))
    else
      var s1 := s.(page0 := Remapped(s, s.visible, t), visible := t);
      if s.started[t] then (s1, Returned(0)) else Launch(s1, t, regs)
  }

  // ----- Descriptors -----

  // The lowest unused descriptor at or above i, or 8.
  function FirstUnused(files: seq<File>, i: nat): (fd: nat)
    requires |files| == PCB_FILE_NUMBER && i <= PCB_FILE_NUMBER
    ensures i <= fd <= PCB_FILE_NUMBER
    ensures forall j :: i <= j < fd ==> files[j] != Unused
    ensures fd < PCB_FILE_NUMBER ==> files[fd] == Unused
    decreases PCB_FILE_NUMBER - i
  {
    if i == PCB_FILE_NUMBER || files[i] == Unused then i else FirstUnused(files, i + 1)
  }

  function OpenFile(files: seq<File>, found: Option<Dentry>): (seq<File>, int)
    requires |files| == PCB_FILE_NUMBER
  {
    var fd: int := FirstUnused(files, FD_START);
    if fd == PCB_FILE_NUMBER || found == None then (files, -1)
    else
      var inode := if found.value.kind == Regular then found.value.inode else 0;
      (files[fd := InUse(found.value.kind, inode, 0)], fd)
  }

  function CloseFile(files: seq<File>, fd: int): (seq<File>, int)
    requires |files| == PCB_FILE_NUMBER
  {
    if fd < FD_START || fd >= PCB_FILE_NUMBER || files[fd] == Unused then (files, -1)
    else (files[fd := Unused], if files[fd].kind in {Stdin, Stdout} then -1 else 0)
  }

  predicate Open(files: seq<File>, fd: int)
    requires |files| == PCB_FILE_NUMBER
  {
    0 <= fd < PCB_FILE_NUMBER && files[fd] != Unused
  }

  function ReadThrough(files: seq<File>, fd: int, reply: Reply): (seq<File>, int)
    requires |files| == PCB_FILE_NUMBER
  {
    if !Open(files, fd) then (files, -1)
    else (files[fd := files[fd].(filePos := files[fd].filePos + reply.advance)], reply.result)
  }

  function WithFiles(s: System, files: seq<File>): System
    requires s.Shape() && s.Active(s.current)
  {
    Retop(s, s.Top(s.current).(files := files))
  }

  // ----- Runs -----

  // regs are the live kernel registers at the time of the event.
  datatype Event =
    | ExecuteCall(known: bool, regs: Regs)
    | HaltCall(status: int)
    | TimerTick(regs: Regs)
    | SwitchKey(terminal: int, regs: Regs)
    | OpenCall(found: Option<Dentry>)
    | CloseCall(fd: int)
    | ReadCall(fd: int, length: int, reply: Reply)
  {
    predicate Ok() {
      match this
      case ExecuteCall(_, regs) => regs.Nonzero()
      case TimerTick(regs) => regs.Nonzero()
      case SwitchKey(t, regs) => 0 <= t < TOTAL_TERMINALS && regs.Nonzero()
      case OpenCall(found) => found.Some? ==> found.value.kind in {Rtc, Directory, Regular} && found.value.inode < U32
      case ReadCall(_, length, reply) => 0 <= length < U32 && (reply.result == -1 ==> reply.advance == 0)
      case _ => true
    }
  }

  // What every event finds: a process of the scheduled terminal to act on.
  ghost predicate Ready(s: System) {
    && s.Shape()
    && s.Active(s.current)
    && 1 <= s.Top(s.current).pid <= MAX_PCB_NUM
    && |s.Top(s.current).files| == PCB_FILE_NUMBER
  }

  ghost function Step(s: System, e: Event): (System, Outcome)
    requires Ready(s) && e.Ok()
  {
    match e
    case ExecuteCall(known, regs) => Execute(s, known, regs)
    case HaltCall(status) => Halt(s, status)
    case TimerTick(regs) => Tick(s, regs)
    case SwitchKey(t, regs) => Switch(s, t, regs)
    case OpenCall(found) =>
      var (files, r) := OpenFile(s.Top(s.current).files, found);
      (WithFiles(s, files), Returned(r))
    case CloseCall(fd) =>
      var (files, r) := CloseFile(s.Top(s.current).files, fd);
      (WithFiles(s, files), Returned(r))
    case ReadCall(fd, _, reply) =>
      var (files, r) := ReadThrough(s.Top(s.current).files, fd, reply);
      (WithFiles(s, files), Returned(r))
  }

  // ----- The invariant -----

  ghost predicate FilesOk(files: seq<File>) {
    && |files| == PCB_FILE_NUMBER
    && files[0].InUse? && files[0].kind == Stdin
    && files[1].InUse? && files[1].kind == Stdout
    && forall i :: FD_START <= i < PCB_FILE_NUMBER && files[i].InUse? ==>
         && files[i].kind in {Rtc, Directory, Regular}
         && 0 <= files[i].inode < U32 && (files[i].kind != Regular ==> files[i].inode == 0)
  }

  ghost predicate FramesOk(s: System) {
    forall t, i :: s.At(t, i) ==>
      0 <= s.stacks[t][i].terminal < TOTAL_TERMINALS && FilesOk(s.stacks[t][i].files)
  }

  // The machine runs the top process of the scheduled terminal.
  ghost predicate Loaded(s: System)
    requires s.Shape()
  {
    && s.Active(s.current)
    && s.cr3 == s.Top(s.current).pid - 1
    && s.esp0 == Esp0(s.Top(s.current).pid)
  }

  // Every other active terminal can be resumed.
  ghost predicate Resumable(s: System)
    requires s.Shape()
  {
    forall t :: 0 <= t < TOTAL_TERMINALS && s.Active(t) ==>
      s.started[t] && (t != s.current ==> s.Top(t).sched.Nonzero())
  }

  // Each process writes to the screen or to the backing page of its recorded
  // terminal, and free slots are already mapped to the screen.
  ghost predicate Mapped(s: System)
    requires s.Shape() && s.Distinct()
  {
    && (forall t, i :: s.At(t, i) ==> s.page0[s.stacks[t][i].pid - 1] == FrameFor(s.stacks[t][i].terminal, s.visible))
    && (forall p :: 1 <= p <= TASK_NUMBER && !s.Live(p) ==> s.page0[p - 1] == VIDEO_FRAME)
  }

  ghost predicate Inv(s: System) {
    && Ready(s)
    && s.Distinct()
    && FramesOk(s)
    && Loaded(s)
    && Resumable(s)
    && Mapped(s)
  }
}
