// The kernel's own process tables: control blocks at fixed places, the slot
// array, the youngest process of each terminal, and parent pointers. Valid
// says that they pack the three stacks of ProcessModel: following the parent
// pointers from pcb_num[t] walks down stack t, the three walks are disjoint,
// and together they visit exactly the slots in use.
module ProcessTable {
  import opened Types
  import opened Paging
  import opened ProcessModel
  import opened ProcessSafety
  import opened ProcessRuns

  datatype ReadOp = ReadTerminal | ReadDefault | ReadRtc | DirectoryRead | ReadFile
  datatype WriteOp = WriteTerminal | WriteDefault | WriteRtc | DirectoryWrite | WriteFile
  datatype OpenOp = OpenTerminal | OpenRtc | DirectoryOpen | OpenRegular
  datatype CloseOp = CloseDefault | CloseRtc | DirectoryClose | CloseRegular
  datatype FileOps = FileOps(read: ReadOp, write: WriteOp, open: OpenOp, close: CloseOp)

  // The operation table that belongs to each kind of file.
  function OpsOf(kind: Kind): FileOps {
    match kind
    case Stdin => FileOps(ReadTerminal, WriteDefault, OpenTerminal, CloseDefault)
    case Stdout => FileOps(ReadDefault, WriteTerminal, OpenTerminal, CloseDefault)
    case Rtc => FileOps(ReadRtc, WriteRtc, OpenRtc, CloseRtc)
    case Directory => FileOps(DirectoryRead, DirectoryWrite, DirectoryOpen, DirectoryClose)
    case Regular => FileOps(ReadFile, WriteFile, OpenRegular, CloseRegular)
  }

  // The operations that open and new_pcb install for a kind of file: what
  // reads, what writes, what opens and what closes it.
  ghost predicate Operates(ops: FileOps, kind: Kind) {
    && (kind == Stdin ==>
          ops.read == ReadTerminal && ops.write == WriteDefault && ops.open == OpenTerminal && ops.close == CloseDefault)
    && (kind == Stdout ==>
          ops.read == ReadDefault && ops.write == WriteTerminal && ops.open == OpenTerminal && ops.close == CloseDefault)
    && (kind == Rtc ==>
          ops.read == ReadRtc && ops.write == WriteRtc && ops.open == OpenRtc && ops.close == CloseRtc)
    && (kind == Directory ==>
          ops.read == DirectoryRead && ops.write == DirectoryWrite && ops.open == DirectoryOpen && ops.close == DirectoryClose)
    && (kind == Regular ==>
          ops.read == ReadFile && ops.write == WriteFile && ops.open == OpenRegular && ops.close == CloseRegular)
  }

  // file_t. fop is the place in the fops array that fop_jump points at.
  datatype FileDesc = FileDesc(fop: Option<(int, int)>, inodePtr: int, filePos: nat, flag: int)

  // Where an inode block lies, in 32-bit arithmetic.
  function InodePointer(bbStart: int, inode: int): int { (bbStart + (inode + 1) * FOUR_KB) % U32 }

  class Pcb {
    var parent: Pcb?
    const file: array<FileDesc>
    var esp: nat
    var ebp: nat
    var schedEsp: nat
    var schedEbp: nat
    var pid: int
    var terminalNumber: int

    // A control block is raw memory until new_pcb fills it.
    constructor ()
      ensures fresh(file) && file.Length == PCB_FILE_NUMBER
    {
      parent, esp, ebp, schedEsp, schedEbp, pid, terminalNumber := null, 0, 0, 0, 0, 0, 0;
      file := new FileDesc[PCB_FILE_NUMBER](_ => FileDesc(None, 0, 0, 0));
    }
  }

  method ControlBlocks() returns (area: seq<Pcb>, fops: seq<array<FileOps>>, ghost blocks: set<object>)
    ensures |area| == |fops| == MAX_PCB_NUM && fresh(blocks)
    ensures forall o :: o in blocks ==> o is Pcb || o is array<FileDesc> || o is array<FileOps>
    ensures forall k :: 0 <= k < |area| ==>
      && area[k] in blocks && area[k].file in blocks && fops[k] in blocks
      && area[k].file.Length == fops[k].Length == PCB_FILE_NUMBER
    ensures forall k, m :: 0 <= k < m < |area| ==> area[k] != area[m] && area[k].file != area[m].file && fops[k] != fops[m]
  {
    area, fops, blocks := [], [], {};
    for i := 0 to MAX_PCB_NUM
      invariant |area| == |fops| == i && fresh(blocks)
      invariant forall o :: o in blocks ==> o is Pcb || o is array<FileDesc> || o is array<FileOps>
      invariant forall k :: 0 <= k < i ==>
        && area[k] in blocks && area[k].file in blocks && fops[k] in blocks
        && area[k].file.Length == fops[k].Length == PCB_FILE_NUMBER
      invariant forall k, m :: 0 <= k < m < i ==> area[k] != area[m] && area[k].file != area[m].file && fops[k] != fops[m]
    {
      var p := new Pcb();
      var row := new FileOps[PCB_FILE_NUMBER](_ => OpsOf(Stdin));
      area, fops := area + [p], fops + [row];
      blocks := blocks + {p, p.file, row};
    }
  }

  method Tables(ptFrame: int, vidmemFrame: int) returns (tables: PageTables)
    requires 0 <= ptFrame && 0 <= vidmemFrame
    requires ptFrame + TASK_NUMBER <= vidmemFrame || vidmemFrame + TASK_NUMBER <= ptFrame
    ensures tables.Valid()
    ensures fresh(tables.vidmem) && fresh(tables.pd) && fresh(tables.pt)
    ensures forall i :: 0 <= i < TASK_NUMBER ==> tables.vidmem[i, 0].base == VIDEO_FRAME
  {
    tables := new PageTables(ptFrame, vidmemFrame);
    tables.SetPaging();
  }

  lemma BlankSystem() returns (s: System)
    ensures Blank(s) && s.esp0 == 0x80_0000 && s.cr3 == 0
    ensures s.Distinct() && forall t, i :: !s.At(t, i)
    ensures forall p :: !s.Live(p)
  {
    s := System([[], [], []], 0, 0, [true, false, false], 0x80_0000, 0, seq(TASK_NUMBER, _ => VIDEO_FRAME));
  }

  lemma AtIsLive(s: System, t: int, i: int)
    requires s.At(t, i)
    ensures s.Live(s.stacks[t][i].pid)
  {
  }

  class Kernel {
    const area: seq<Pcb>            // the control block of slot n is area[n - 1]
    const pcbPtr: array<Pcb?>
    const pcbNum: array<int>
    const runShell: array<bool>
    const fops: seq<array<FileOps>> // one row of operation tables for each slot
    const tables: PageTables
    const bbStart: int
    var currentTerminal: int
    var terminalNumber: int
    var esp0: int
    var cr3: int
    ghost var abs: System

    ghost const blocks: set<object> // the control blocks, their descriptors and operation tables

    ghost function Repr(): set<object> {
      {this, pcbPtr, pcbNum, runShell, tables.vidmem} + blocks
    }

    ghost predicate Layout() {
      && |area| == MAX_PCB_NUM && pcbPtr.Length == MAX_PCB_NUM
      && pcbNum.Length == TOTAL_TERMINALS && runShell.Length == TOTAL_TERMINALS
      && |fops| == MAX_PCB_NUM
      && bbStart > 0
      && {this, pcbPtr, pcbNum, runShell, tables.pd, tables.pt, tables.vidmem} !! blocks
      && (forall k :: 0 <= k < MAX_PCB_NUM ==>
            && area[k].file.Length == PCB_FILE_NUMBER && fops[k].Length == PCB_FILE_NUMBER
            && area[k] in blocks && area[k].file in blocks && fops[k] in blocks)
      && (forall k, m :: 0 <= k < MAX_PCB_NUM && 0 <= m < MAX_PCB_NUM && k != m ==>
            area[k] != area[m] && area[k].file != area[m].file && fops[k] != fops[m])
    }

    // A descriptor in use points at its own entry of the operation tables.
    ghost predicate FileMatches(d: FileDesc, f: File, slot: int, fd: int)
      requires Layout() && 0 <= slot < MAX_PCB_NUM && 0 <= fd < PCB_FILE_NUMBER
      reads fops[slot]
    {
      match f
      case Unused => d.flag == 0
      case InUse(kind, inode, filePos) =>
        && d.flag == 1
        && d.fop == Some((slot, fd))
        && fops[slot][fd] == OpsOf(kind)
        && d.inodePtr == (if kind == Regular then InodePointer(bbStart, inode) else 0)
        && d.filePos == filePos
    }

    ghost predicate FilesMatch(slot: int, files: seq<File>)
      requires Layout() && 0 <= slot < MAX_PCB_NUM
      reads fops[slot], area[slot].file
    {
      && |files| == PCB_FILE_NUMBER
      && forall fd :: 0 <= fd < PCB_FILE_NUMBER ==> FileMatches(area[slot].file[fd], files[fd], slot, fd)
    }

    ghost predicate FrameMatches(f: Frame, parent: Pcb?)
      requires Layout() && 1 <= f.pid <= MAX_PCB_NUM
      reads area[f.pid - 1], area[f.pid - 1].file, fops[f.pid - 1]
    {
      var p := area[f.pid - 1];
      && p.pid == f.pid
      && p.terminalNumber == f.terminal
      && Regs(p.esp, p.ebp) == f.saved
      && Regs(p.schedEsp, p.schedEbp) == f.sched
      && p.parent == parent
      && FilesMatch(f.pid - 1, f.files)
    }

    // The parent of the process at a stack position is the one below it.
    ghost function BelowIn(s: System, t: int, i: int): Pcb?
      requires Layout() && s.Distinct() && s.At(t, i)
    {
      if i == 0 then null
      else
        assert s.At(t, i - 1);
        area[s.stacks[t][i - 1].pid - 1]
    }

    ghost predicate StacksMatch(s: System)
      requires Layout() && s.Distinct()
      reads blocks
    {
      forall t, i {:trigger BelowIn(s, t, i)} :: s.At(t, i) ==> FrameMatches(s.stacks[t][i], BelowIn(s, t, i))
    }

    // The frame of slot num, with registers parked in it.
    ghost function ParkedFrame(f: Frame, num: int, regs: Regs): Frame {
      if f.pid == num then f.(saved := regs) else f
    }

    ghost predicate ParkedMatch(s: System, num: int, regs: Regs)
      requires Layout() && s.Distinct()
      reads blocks
    {
      forall t, i {:trigger BelowIn(s, t, i)} :: s.At(t, i) ==> FrameMatches(ParkedFrame(s.stacks[t][i], num, regs), BelowIn(s, t, i))
    }

    ghost predicate SlotsMatch(s: System)
      requires Layout()
      reads pcbPtr
    {
      forall k :: 0 <= k < MAX_PCB_NUM ==> pcbPtr[k] == if s.Live(k + 1) then area[k] else null
    }

    ghost predicate TopsMatch(s: System)
      requires Layout() && s.Shape()
      reads pcbNum
    {
      forall t :: 0 <= t < TOTAL_TERMINALS ==> pcbNum[t] == if s.Active(t) then s.Top(t).pid else 0
    }

    ghost predicate RegistersMatch(s: System)
      requires Layout()
      reads runShell, `currentTerminal, `terminalNumber, `esp0, `cr3
    {
      && runShell[..] == s.started
      && currentTerminal == s.current
      && terminalNumber == s.visible
      && esp0 == s.esp0 && cr3 == s.cr3
    }

    ghost predicate PagesMatch(page0: seq<int>)
      requires |page0| == TASK_NUMBER
      reads tables.pd, tables.pt, tables.vidmem
    {
      && tables.Valid()
      && forall k :: 0 <= k < TASK_NUMBER ==> tables.vidmem[k, 0].base == page0[k]
    }

    ghost predicate Valid()
      reads this, Repr(), tables.pd, tables.pt
    {
      && Layout()
      && abs.Shape() && abs.Distinct()
      && StacksMatch(abs)
      && SlotsMatch(abs)
      && TopsMatch(abs)
      && RegistersMatch(abs)
      && PagesMatch(abs.page0)
    }

    // init_pcb, set_paging and the flags that the kernel's entry sets, up to
    // the point where the first shell is executed.
    constructor (bbStart: int, ptFrame: int, vidmemFrame: int)
      requires bbStart > 0 && 0 <= ptFrame && 0 <= vidmemFrame
      requires ptFrame + TASK_NUMBER <= vidmemFrame || vidmemFrame + TASK_NUMBER <= ptFrame
      ensures Valid() && Blank(abs) && fresh(Repr() + {tables.pd, tables.pt})
    {
      var areas, rows, owned := ControlBlocks();
      area, fops := areas, rows;
      blocks := owned;
      pcbPtr := new Pcb?[MAX_PCB_NUM](_ => null);
      pcbNum := new int[TOTAL_TERMINALS](_ => 0);
      runShell := new bool[TOTAL_TERMINALS](t => t == 0);
      var pages := Tables(ptFrame, vidmemFrame);
      tables := pages;
      this.bbStart := bbStart;
      currentTerminal, terminalNumber, esp0, cr3 := 0, 0, 0x80_0000, 0;
      ghost var s := BlankSystem();
      abs := s;
      new;
      assert fresh(Repr() + {tables.pd, tables.pt});
      assert {this, pcbPtr, pcbNum, runShell, tables.pd, tables.pt, tables.vidmem} !! blocks;
      assert Layout();
      assert SlotsMatch(s);
      assert TopsMatch(s);
      assert RegistersMatch(s);
      assert PagesMatch(s.page0);
      assert StacksMatch(s);
      hide Layout, SlotsMatch, TopsMatch, RegistersMatch, PagesMatch, StacksMatch, Repr;
    }

    // find_new_pcb: the first empty slot.
    method FindNewPcb() returns (n: int)
      requires Layout() && SlotsMatch(abs)
      ensures n == FreeSlot(abs)
    {
      var i := 0;
      while i < MAX_PCB_NUM
        invariant 0 <= i <= MAX_PCB_NUM
        invariant FreeSlot(abs) == FreeFrom(abs, i + 1)
      {
        if pcbPtr[i] == null { break; }
        i := i + 1;
      }
      if i == MAX_PCB_NUM { return -1; }
      return i + 1;
    }

    method FindPcb(num: int) returns (p: Pcb?)
      requires Layout() && 0 <= num
      ensures p == if 1 <= num <= MAX_PCB_NUM then pcbPtr[num - 1] else null
    {
      if num > MAX_PCB_NUM { return null; }
      if num == 0 { return null; }
      if pcbPtr[num - 1] == null { return null; }
      return pcbPtr[num - 1];
    }

    // The descriptor part of new_pcb: standard input and output only.
    method NewFiles(p: Pcb, num: int)
      requires Layout() && 1 <= num <= MAX_PCB_NUM && p == area[num - 1]
      modifies p.file, fops[num - 1]
      ensures FilesMatch(num - 1, FreshFiles())
    {
      for i := 0 to PCB_FILE_NUMBER
        modifies p.file
        invariant forall fd :: 0 <= fd < i ==> p.file[fd].flag == 0
      {
        p.file[i] := p.file[i].(flag := 0);
      }
      fops[num - 1][0] := FileOps(ReadTerminal, WriteDefault, OpenTerminal, CloseDefault);
      p.file[0] := FileDesc(Some((num - 1, 0)), 0, 0, 1);
      fops[num - 1][1] := FileOps(ReadDefault, WriteTerminal, OpenTerminal, CloseDefault);
      p.file[1] := FileDesc(Some((num - 1, 1)), 0, 0, 1);
    }

    method NewPcb(p: Pcb, parentNum: int, num: int)
      requires Layout() && 1 <= num <= MAX_PCB_NUM && p == area[num - 1] && 0 <= parentNum
      modifies p, p.file, fops[num - 1]
      ensures FrameMatches(NewFrame(num, terminalNumber), if 1 <= parentNum <= MAX_PCB_NUM then old(pcbPtr[parentNum - 1]) else null)
    {
      hide FilesMatch;
      if parentNum == 0 {
        p.parent := null;
      } else {
        p.parent := FindPcb(parentNum);
      }
      NewFiles(p, num);
      p.ebp, p.esp := 0, 0;
      p.schedEsp, p.schedEbp := 0, 0;
      p.pid := num;
      p.terminalNumber := terminalNumber;
    }

    // Loads the page directory of a task (set_new_task with flag 0).
    method SetNewTask(task: int)
      modifies `cr3
      ensures cr3 == task
    {
      cr3 := task;
    }

    // The part of execute that fills the chosen slot; the other frames stay as they are.
    method Place(ind: int, n: int, parentNum: int, ghost s: System)
      requires Layout() && 0 <= ind < TOTAL_TERMINALS
      requires 1 <= n <= MAX_PCB_NUM && 0 <= parentNum <= MAX_PCB_NUM && parentNum != n
      requires parentNum != 0 ==> pcbPtr[parentNum - 1] == area[parentNum - 1]
      requires s.Distinct() && StacksMatch(s) && !s.Live(n)
      modifies pcbNum, pcbPtr, `cr3, `esp0, area[n - 1], area[n - 1].file, fops[n - 1]
      ensures pcbNum[..] == old(pcbNum[..])[ind := n]
      ensures pcbPtr[..] == old(pcbPtr[..])[n - 1 := area[n - 1]]
      ensures cr3 == n - 1 && esp0 == Esp0(n)
      ensures FrameMatches(NewFrame(n, terminalNumber), if parentNum == 0 then null else area[parentNum - 1])
      ensures StacksMatch(s)
    {
      hide FilesMatch, FrameMatches;
      pcbNum[ind] := n;
      SetNewTask(n - 1);
      pcbPtr[n - 1] := area[n - 1];
      NewPcb(area[n - 1], parentNum, n);
      esp0 := KERNEL_BOTTOM - STACK_SIZE * (n - 1);
      forall t, i | s.At(t, i) ensures FrameMatches(s.stacks[t][i], BelowIn(s, t, i)) {
        AtIsLive(s, t, i);
        assert old(FrameMatches(s.stacks[t][i], BelowIn(s, t, i)));
      }
    }

    // The part of execute that saves the caller's registers, if there is a caller.
    method ParkParent(n: int, parentNum: int, regs: Regs, ghost s: System)
      requires Layout() && 1 <= n <= MAX_PCB_NUM && 0 <= parentNum <= MAX_PCB_NUM && parentNum != n
      requires s.Distinct() && StacksMatch(s)
      requires pcbPtr[n - 1] == area[n - 1]
      requires FrameMatches(NewFrame(n, terminalNumber), if parentNum == 0 then null else area[parentNum - 1])
      modifies if parentNum == 0 then {} else {area[parentNum - 1]}
      ensures FrameMatches(NewFrame(n, terminalNumber), if parentNum == 0 then null else area[parentNum - 1])
      ensures ParkedMatch(s, parentNum, regs)
    {
      hide FilesMatch;
      var np := FindPcb(n);
      if np.parent != null {
        np.parent.esp, np.parent.ebp := regs.esp, regs.ebp;
      }
      forall t, i | s.At(t, i) ensures FrameMatches(ParkedFrame(s.stacks[t][i], parentNum, regs), BelowIn(s, t, i)) {
        assert old(FrameMatches(s.stacks[t][i], BelowIn(s, t, i)));
      }
    }

    // The youngest process of the scheduled terminal does not sit in a free slot.
    lemma ParentIsElsewhere(s: System, n: int)
      requires Layout() && s.Shape() && s.Distinct() && SlotsMatch(s) && TopsMatch(s)
      requires 1 <= n && !s.Live(n)
      ensures var num := pcbNum[s.current];
        0 <= num <= MAX_PCB_NUM && num != n && (num != 0 ==> pcbPtr[num - 1] == area[num - 1])
    {
      if s.Active(s.current) {
        assert s.At(s.current, |s.stacks[s.current]| - 1);
        assert s.Live(pcbNum[s.current]);
      }
    }

    lemma SlotsAfterExecute(s: System, regs: Regs, before: seq<Pcb?>)
      requires Layout() && s.Shape() && FreeSlot(s) != -1 && |before| == MAX_PCB_NUM
      requires forall k :: 0 <= k < MAX_PCB_NUM ==> before[k] == if s.Live(k + 1) then area[k] else null
      requires pcbPtr[..] == before[FreeSlot(s) - 1 := area[FreeSlot(s) - 1]]
      ensures SlotsMatch(ProcessModel.Execute(s, true, regs).0)
    {
      ExecuteLives(s, regs);
      hide ProcessModel.Execute;
      forall k | 0 <= k < MAX_PCB_NUM
        ensures pcbPtr[k] == if ProcessModel.Execute(s, true, regs).0.Live(k + 1) then area[k] else null {
        assert pcbPtr[..][k] == pcbPtr[k];
      }
    }

    lemma TopsAfterExecute(s: System, regs: Regs, before: seq<int>)
      requires Layout() && s.Shape() && FreeSlot(s) != -1
      requires |before| == TOTAL_TERMINALS
      requires forall t :: 0 <= t < TOTAL_TERMINALS ==> before[t] == if s.Active(t) then s.Top(t).pid else 0
      requires pcbNum[..] == before[s.current := FreeSlot(s)]
      ensures var s' := ProcessModel.Execute(s, true, regs).0; s'.Shape() && TopsMatch(s')
    {
      hide FreeSlot;
      var s' := ProcessModel.Execute(s, true, regs).0;
      forall t | 0 <= t < TOTAL_TERMINALS ensures pcbNum[t] == if s'.Active(t) then s'.Top(t).pid else 0 {
        assert pcbNum[..][t] == pcbNum[t];
      }
    }

    lemma StacksAfterExecute(s: System, parentNum: int, regs: Regs)
      requires Layout() && s.Shape() && s.Distinct() && FreeSlot(s) != -1
      requires parentNum == if s.Active(s.current) then s.Top(s.current).pid else 0
      requires FrameMatches(NewFrame(FreeSlot(s), s.visible), if 1 <= parentNum <= MAX_PCB_NUM then area[parentNum - 1] else null)
      requires ParkedMatch(s, parentNum, regs)
      ensures var s' := ProcessModel.Execute(s, true, regs).0; s'.Distinct() && StacksMatch(s')
    {
      hide FrameMatches, Layout, ProcessModel.Execute, FreeSlot;
      var s' := ProcessModel.Execute(s, true, regs).0;
      ExecutePlaces(s, regs);
      ExecuteDistinct(s, regs);
      var c, d := s.current, |s.stacks[s.current]|;
      if d > 0 { assert s.At(c, d - 1); }
      forall t, i | s'.At(t, i) ensures FrameMatches(s'.stacks[t][i], BelowIn(s', t, i)) {
        if t == c && i == d {
          assert s'.At(c, d);
        } else {
          assert s.At(t, i);
          ParkedAt(s, parentNum, regs, t, i);
        }
        if i > 0 { assert s.At(t, i - 1); }
      }
    }

    lemma ParkedAt(s: System, num: int, regs: Regs, t: int, i: int)
      requires Layout() && s.Distinct() && ParkedMatch(s, num, regs) && s.At(t, i)
      ensures FrameMatches(ParkedFrame(s.stacks[t][i], num, regs), BelowIn(s, t, i))
    {
    }

    // The new process is in its slot and the caller's registers are parked.
    method FillSlot(n: int, regs: Regs) returns (ghost parentNum: int)
      requires Valid() && n == FreeSlot(abs) && n != -1
      modifies pcbNum, pcbPtr, `cr3, `esp0, blocks
      ensures Layout() && abs == old(abs) && cr3 == n - 1 && esp0 == Esp0(n)
      ensures pcbNum[..] == old(pcbNum[..])[abs.current := n]
      ensures pcbPtr[..] == old(pcbPtr[..])[n - 1 := area[n - 1]]
      ensures parentNum == if abs.Active(abs.current) then abs.Top(abs.current).pid else 0
      ensures FrameMatches(NewFrame(n, abs.visible), if 1 <= parentNum <= MAX_PCB_NUM then area[parentNum - 1] else null)
      ensures ParkedMatch(abs, parentNum, regs)
    {
      hide FrameMatches, PageTables.Valid, ParkedMatch, StacksMatch, System.Distinct, PagesMatch;
      var ind := currentTerminal;
      var num := pcbNum[ind];
      parentNum := num;
      ParentIsElsewhere(abs, n);
      hide SlotsMatch;
      Place(ind, n, num, abs);
      ParkParent(n, num, regs, abs);
    }

    // The second half of execute, once the slot is chosen.
    method Enter(n: int, regs: Regs)
      requires Valid() && n == FreeSlot(abs) && n != -1
      modifies Repr()
      ensures Valid()
      ensures abs == ProcessModel.Execute(old(abs), true, regs).0
    {
      hide FrameMatches, PageTables.Valid, ProcessModel.Execute, ParkedMatch, StacksMatch, System.Distinct, FreeSlot, PagesMatch;
      ghost var s := abs;
      ghost var parentNum := FillSlot(n, regs);
      ExecuteSettings(s, regs);
      SlotsAfterExecute(s, regs, old(pcbPtr[..]));
      hide SlotsMatch;
      TopsAfterExecute(s, regs, old(pcbNum[..]));
      hide TopsMatch;
      StacksAfterExecute(s, parentNum, regs);
      abs := ProcessModel.Execute(s, true, regs).0;
    }

    // known: the command names a program whose image starts with the ELF magic.
    method Execute(known: bool, regs: Regs) returns (o: Outcome)
      requires Valid()
      modifies Repr()
      ensures Valid()
      ensures (abs, o) == ProcessModel.Execute(old(abs), known, regs)
    {
      if !known { return Returned(-1); }
      var n := FindNewPcb();
      if n == -1 { return Returned(-1); }
      Enter(n, regs);
      return Entered(n);
    }

    // ----- Changes to the running process -----

    lemma RetopStacks(s: System, f: Frame)
      requires Layout() && s.Shape() && s.Distinct() && s.Active(s.current)
      requires f.pid == s.Top(s.current).pid
      requires forall t, i {:trigger BelowIn(s, t, i)} :: s.At(t, i) ==>
        FrameMatches(if s.stacks[t][i].pid == f.pid then f else s.stacks[t][i], BelowIn(s, t, i))
      ensures Retop(s, f).Distinct() && StacksMatch(Retop(s, f))
    {
      hide FrameMatches, Layout, Retop;
      var s' := Retop(s, f);
      RetopPlaces(s, f);
      RetopKeeps(s, f);
      forall t, i | s'.At(t, i) ensures FrameMatches(s'.stacks[t][i], BelowIn(s', t, i)) {
        assert s.At(t, i);
        if i > 0 { assert s.At(t, i - 1); }
        assert BelowIn(s', t, i) == BelowIn(s, t, i);
      }
    }

    lemma RetopMatches(s: System, f: Frame)
      requires Layout() && s.Shape() && s.Distinct() && s.Active(s.current)
      requires SlotsMatch(s) && TopsMatch(s)
      requires f.pid == s.Top(s.current).pid
      requires forall t, i {:trigger BelowIn(s, t, i)} :: s.At(t, i) ==>
        FrameMatches(if s.stacks[t][i].pid == f.pid then f else s.stacks[t][i], BelowIn(s, t, i))
      ensures var s' := Retop(s, f);
        s'.Shape() && s'.Distinct() && StacksMatch(s') && SlotsMatch(s') && TopsMatch(s')
    {
      hide FrameMatches, StacksMatch, System.Distinct;
      RetopPlaces(s, f);
      RetopKeeps(s, f);
      RetopStacks(s, f);
      hide Retop;
    }

    // The control block of the running process, if there is one.
    method Running() returns (p: Pcb?)
      requires Valid()
      ensures p != null <==> abs.Active(abs.current)
      ensures p != null ==> 1 <= abs.Top(abs.current).pid <= MAX_PCB_NUM && p == area[abs.Top(abs.current).pid - 1]
    {
      if abs.Active(abs.current) { AtIsLive(abs, abs.current, |abs.stacks[abs.current]| - 1); }
      p := FindPcb(pcbNum[currentTerminal]);
    }

    ghost function SchedFrame(f: Frame, num: int, regs: Regs): Frame {
      if f.pid == num then f.(sched := regs) else f
    }

    // Stores the live registers of a process that the scheduler leaves.
    method SaveSched(p: Pcb, ghost num: int, regs: Regs, ghost s: System)
      requires Layout() && s.Distinct() && StacksMatch(s)
      requires 1 <= num <= MAX_PCB_NUM && p == area[num - 1]
      modifies p
      ensures forall t, i {:trigger BelowIn(s, t, i)} :: s.At(t, i) ==> FrameMatches(SchedFrame(s.stacks[t][i], num, regs), BelowIn(s, t, i))
    {
      hide FilesMatch;
      p.schedEsp := regs.esp;
      p.schedEbp := regs.ebp;
      forall t, i | s.At(t, i) ensures FrameMatches(SchedFrame(s.stacks[t][i], num, regs), BelowIn(s, t, i)) {
        assert old(FrameMatches(s.stacks[t][i], BelowIn(s, t, i)));
      }
    }

    lemma TopIsUnique(s: System)
      requires s.Shape() && s.Distinct() && s.Active(s.current)
      ensures forall t, i :: s.At(t, i) && s.stacks[t][i].pid == s.Top(s.current).pid ==> s.stacks[t][i] == s.Top(s.current)
      ensures 1 <= s.Top(s.current).pid <= MAX_PCB_NUM
    {
      assert s.At(s.current, |s.stacks[s.current]| - 1);
    }

    method Preempt(p: Pcb, regs: Regs)
      requires Valid() && abs.Active(abs.current)
      requires 1 <= abs.Top(abs.current).pid <= MAX_PCB_NUM && p == area[abs.Top(abs.current).pid - 1]
      modifies this, blocks
      ensures Valid()
      ensures abs == Preempted(old(abs), regs)
    {
      hide FrameMatches, PageTables.Valid, System.Distinct;
      ghost var s := abs;
      SaveSched(p, s.Top(s.current).pid, regs, s);
      hide StacksMatch;
      TopIsUnique(s);
      RetopMatches(s, s.Top(s.current).(sched := regs));
      hide SlotsMatch, TopsMatch, PagesMatch;
      abs := Preempted(s, regs);
    }

    // ----- Halt -----

    // restore_page.
    method RestorePage(task: int)
      requires tables.Valid() && 0 <= task < TASK_NUMBER
      modifies tables.vidmem
      ensures tables.Valid() && tables.vidmem[task, 0].base == VIDEO_FRAME
      ensures forall k :: 0 <= k < TASK_NUMBER && k != task ==> tables.vidmem[k, 0].base == old(tables.vidmem[k, 0].base)
    {
      tables.SetPage0(task, VIDEO / FOUR_KB);
    }

    lemma SlotsAfterPop(s: System, before: seq<Pcb?>)
      requires Layout() && s.Shape() && s.Distinct() && s.Active(s.current) && |before| == MAX_PCB_NUM
      requires forall k :: 0 <= k < MAX_PCB_NUM ==> before[k] == if s.Live(k + 1) then area[k] else null
      requires 1 <= s.Top(s.current).pid <= MAX_PCB_NUM
      requires pcbPtr[..] == before[s.Top(s.current).pid - 1 := null]
      ensures SlotsMatch(Popped(s))
    {
      PoppedPlaces(s);
      var s' := Popped(s);
      hide Popped, System.Distinct;
      forall k | 0 <= k < MAX_PCB_NUM ensures pcbPtr[k] == if s'.Live(k + 1) then area[k] else null {
        assert pcbPtr[..][k] == pcbPtr[k];
      }
    }

    lemma TopsAfterPop(s: System, before: seq<int>)
      requires Layout() && s.Shape() && s.Active(s.current) && |before| == TOTAL_TERMINALS
      requires 1 <= s.Top(s.current).pid <= MAX_PCB_NUM
      requires forall t :: 0 <= t < TOTAL_TERMINALS ==> before[t] == if s.Active(t) then s.Top(t).pid else 0
      requires var d := |s.stacks[s.current]| - 1;
        pcbNum[..] == before[s.current := if d == 0 then 0 else s.stacks[s.current][d - 1].pid]
      ensures Popped(s).Shape() && TopsMatch(Popped(s))
    {
      var s' := Popped(s);
      forall t | 0 <= t < TOTAL_TERMINALS ensures pcbNum[t] == if s'.Active(t) then s'.Top(t).pid else 0 {
        assert pcbNum[..][t] == pcbNum[t];
      }
    }

    lemma PoppedDistinct(s: System)
      requires s.Shape() && s.Distinct() && s.Active(s.current) && 1 <= s.Top(s.current).pid <= MAX_PCB_NUM
      ensures Popped(s).Distinct()
    {
      PoppedPlaces(s);
      hide Popped;
    }

    lemma StacksMatchAll(s: System)
      requires Layout() && s.Distinct() && StacksMatch(s)
      ensures forall t, i :: s.At(t, i) ==> 1 <= s.stacks[t][i].pid <= MAX_PCB_NUM
    {
    }

    lemma StacksAfterPop(s: System)
      requires Layout() && s.Shape() && s.Distinct() && s.Active(s.current)
      requires StacksMatch(s)
      requires 1 <= s.Top(s.current).pid <= MAX_PCB_NUM
      ensures Popped(s).Distinct() && StacksMatch(Popped(s))
    {
      hide FrameMatches, Layout;
      PoppedPlaces(s);
      PoppedDistinct(s);
      hide Popped, System.Distinct;
      var s' := Popped(s);
      StacksMatchAll(s);
      forall t, i | s'.At(t, i) ensures FrameMatches(s'.stacks[t][i], BelowIn(s', t, i)) {
        if i > 0 { assert s'.At(t, i - 1); }
        assert BelowIn(s', t, i) == BelowIn(s, t, i);
      }
    }

    // The parent pointer of the running process, read through the stacks.
    lemma ParentOfTop(s: System)
      requires Layout() && s.Shape() && s.Distinct() && StacksMatch(s) && s.Active(s.current)
      ensures 1 <= s.Top(s.current).pid <= MAX_PCB_NUM
      ensures var st, p := s.stacks[s.current], area[s.Top(s.current).pid - 1].parent;
        && (p == null <==> |st| == 1)
        && (p != null ==> && p.pid == st[|st| - 2].pid && 1 <= p.pid <= MAX_PCB_NUM
                          && Regs(p.esp, p.ebp) == st[|st| - 2].saved)
    {
      hide FilesMatch, StacksMatch, System.Distinct;
      var c, d := s.current, |s.stacks[s.current]| - 1;
      FrameAt(s, c, d);
      if d > 0 { FrameAt(s, c, d - 1); }
    }

    lemma FrameAt(s: System, t: int, i: int)
      requires Layout() && s.Distinct() && StacksMatch(s) && s.At(t, i)
      ensures 1 <= s.stacks[t][i].pid <= MAX_PCB_NUM
      ensures FrameMatches(s.stacks[t][i], BelowIn(s, t, i))
    {
    }

    // The part of halt that removes the running process from the tables.
    method Retire(ind: int, num: int, parentNum: int)
      requires Valid() && abs.Active(abs.current) && ind == abs.current
      requires num == abs.Top(abs.current).pid && 1 <= num <= MAX_PCB_NUM
      requires parentNum == if |abs.stacks[ind]| == 1 then 0 else abs.stacks[ind][|abs.stacks[ind]| - 2].pid
      modifies this, pcbPtr, pcbNum, tables.vidmem
      ensures Valid()
      ensures abs == Popped(old(abs))
    {
      hide FrameMatches, StacksMatch;
      ghost var s := abs;
      pcbPtr[num - 1] := null;
      RestorePage(num - 1);
      pcbNum[ind] := parentNum;
      hide PageTables.Valid;
      SlotsAfterPop(s, old(pcbPtr[..]));
      TopsAfterPop(s, old(pcbNum[..]));
      StacksAfterPop(s);
      hide SlotsMatch, TopsMatch;
      abs := Popped(s);
    }

    // ----- Descriptors -----

    // fops[slot][fd].close_func: every close function but the default one succeeds.
    function CloseResult(op: CloseOp): int {
      if op == CloseDefault then -1 else 0
    }

    ghost function FiledFrame(f: Frame, num: int, fd: int, file: File): Frame
      requires 0 <= fd
    {
      if f.pid == num && fd < |f.files| then f.(files := f.files[fd := file]) else f
    }

    // The frames once the descriptor fd of slot num stands for the given file.
    ghost predicate FiledMatch(s: System, num: int, fd: int, file: File)
      requires Layout() && s.Distinct() && 0 <= fd
      reads blocks
    {
      forall t, i {:trigger BelowIn(s, t, i)} :: s.At(t, i) ==> FrameMatches(FiledFrame(s.stacks[t][i], num, fd, file), BelowIn(s, t, i))
    }

    method CloseDescriptor(pcb: Pcb, ghost num: int, fd: int, ghost s: System)
      requires Layout() && s.Distinct() && StacksMatch(s)
      requires 1 <= num <= MAX_PCB_NUM && pcb == area[num - 1] && 0 <= fd < PCB_FILE_NUMBER
      modifies pcb.file
      ensures FiledMatch(s, num, fd, Unused)
    {
      pcb.file[fd] := pcb.file[fd].(flag := 0);
      forall t, i | s.At(t, i) ensures FrameMatches(FiledFrame(s.stacks[t][i], num, fd, Unused), BelowIn(s, t, i)) {
        assert old(FrameMatches(s.stacks[t][i], BelowIn(s, t, i)));
      }
    }

    lemma FilesRetopped(s: System, fd: int, file: File)
      requires Layout() && s.Shape() && s.Distinct() && s.Active(s.current)
      requires SlotsMatch(s) && TopsMatch(s)
      requires 0 <= fd < |s.Top(s.current).files|
      requires FiledMatch(s, s.Top(s.current).pid, fd, file)
      ensures var s' := WithFiles(s, s.Top(s.current).files[fd := file]);
        s'.Shape() && s'.Distinct() && StacksMatch(s') && SlotsMatch(s') && TopsMatch(s')
    {
      hide FrameMatches, Layout, System.Distinct;
      TopIsUnique(s);
      RetopMatches(s, s.Top(s.current).(files := s.Top(s.current).files[fd := file]));
    }

    // The running process's descriptor, read through the stacks.
    lemma TopFile(s: System, fd: int)
      requires Layout() && s.Shape() && s.Distinct() && StacksMatch(s) && s.Active(s.current)
      ensures 1 <= s.Top(s.current).pid <= MAX_PCB_NUM && |s.Top(s.current).files| == PCB_FILE_NUMBER
      ensures var slot := s.Top(s.current).pid - 1;
        0 <= fd < PCB_FILE_NUMBER ==> FileMatches(area[slot].file[fd], s.Top(s.current).files[fd], slot, fd)
    {
      hide StacksMatch, System.Distinct, FileMatches;
      FrameAt(s, s.current, |s.stacks[s.current]| - 1);
      hide Layout;
      assert FilesMatch(s.Top(s.current).pid - 1, s.Top(s.current).files);
    }

    method CloseInUse(pcb: Pcb, ghost num: int, fd: int) returns (r: int)
      requires Valid() && abs.Active(abs.current)
      requires num == abs.Top(abs.current).pid && 1 <= num <= MAX_PCB_NUM && pcb == area[num - 1]
      requires 0 <= fd < PCB_FILE_NUMBER == |abs.Top(abs.current).files|
      requires FileMatches(pcb.file[fd], abs.Top(abs.current).files[fd], num - 1, fd)
      requires abs.Top(abs.current).files[fd] != Unused
      modifies this, blocks
      ensures Valid()
      ensures abs == WithFiles(old(abs), old(abs).Top(old(abs).current).files[fd := Unused])
      ensures r == if old(abs).Top(old(abs).current).files[fd].kind in {Stdin, Stdout} then -1 else 0
    {
      hide FrameMatches, PageTables.Valid, StacksMatch, FiledMatch;
      ghost var s := abs;
      r := CloseResult(fops[pcb.file[fd].fop.value.0][pcb.file[fd].fop.value.1].close);
      CloseDescriptor(pcb, num, fd, s);
      FilesRetopped(s, fd, Unused);
      hide SlotsMatch, TopsMatch, PagesMatch;
      abs := WithFiles(s, s.Top(s.current).files[fd := Unused]);
    }

    method Close(fd: int) returns (r: int)
      requires Valid() && abs.Active(abs.current)
      modifies this, blocks
      ensures Valid()
      ensures |old(abs).Top(old(abs).current).files| == PCB_FILE_NUMBER
      ensures var (files, result) := CloseFile(old(abs).Top(old(abs).current).files, fd);
        abs == WithFiles(old(abs), files) && r == result
    {
      hide FrameMatches, PageTables.Valid, StacksMatch, SlotsMatch, TopsMatch, PagesMatch, System.Distinct;
      TopFile(abs, fd);
      SameFiles(abs);
      if fd < FD_START || fd >= PCB_FILE_NUMBER { return -1; }
      var pcb := Running();
      if pcb == null { return -1; }
      if pcb.file[fd].flag == 0 { return -1; }
      r := CloseInUse(pcb, abs.Top(abs.current).pid, fd);
    }

    method Halt(status: int) returns (o: Outcome)
      requires Valid() && abs.Active(abs.current)
      modifies Repr()
      ensures Valid()
      ensures 1 <= old(abs).Top(old(abs).current).pid <= MAX_PCB_NUM
      ensures (abs, o) == ProcessModel.Halt(old(abs), status)
    {
      hide FrameMatches, PageTables.Valid, StacksMatch, System.Distinct, FreeSlot;
      var ind := currentTerminal;
      CloseUnused();
      ParentOfTop(abs);
      var curr := Running();
      var parent := curr.parent;
      var num := pcbNum[ind];
      if parent == null {
        Retire(ind, num, 0);
        o := Execute(true, Regs(0, 0));
      } else {
        o := Exited(Regs(parent.esp, parent.ebp), status);
        Retire(ind, num, parent.pid);
        Continue(pcbNum[ind]);
      }
    }

    // The loop with which halt means to close the files of the process. It
    // selects the unused descriptors, which close refuses.
    method CloseUnused()
      requires Valid() && abs.Active(abs.current)
      modifies this, blocks
      ensures Valid() && abs == old(abs)
    {
      hide FrameMatches, PageTables.Valid, StacksMatch, System.Distinct;
      var curr := Running();
      for fd := FD_START to PCB_FILE_NUMBER
        invariant Valid() && abs == old(abs)
      {
        TopFile(abs, fd);
        if curr.file[fd].flag == 0 {
          SameFiles(abs);
          var _ := Close(fd);
        }
      }
    }

    // Points the processor at the tables and the kernel stack of a process.
    method Continue(num: int)
      requires Valid()
      modifies this
      ensures Valid()
      ensures abs == Load(old(abs), num)
    {
      hide FrameMatches, PageTables.Valid, StacksMatch, SlotsMatch, TopsMatch, PagesMatch;
      SameStacksMatch(abs, Load(abs, num));
      esp0 := KERNEL_BOTTOM - STACK_SIZE * (num - 1);
      SetNewTask(num - 1);
      abs := Load(abs, num);
    }

    lemma SameStacksMatch(s: System, s': System)
      requires Layout() && s.Shape() && s.Distinct() && s'.Shape() && s'.stacks == s.stacks
      ensures s'.Distinct()
      ensures StacksMatch(s) ==> StacksMatch(s')
      ensures SlotsMatch(s) ==> SlotsMatch(s')
      ensures TopsMatch(s) ==> TopsMatch(s')
    {
      hide FrameMatches, Layout, StacksMatch;
      forall t, i ensures s'.At(t, i) == s.At(t, i) {}
      SameStacksAreLive(s, s');
      SameFramesMatch(s, s');
    }

    lemma SameFramesMatch(s: System, s': System)
      requires Layout() && s.Distinct() && s'.Distinct() && s'.stacks == s.stacks
      ensures StacksMatch(s) ==> StacksMatch(s')
    {
      hide FrameMatches, Layout;
      if StacksMatch(s) {
        forall t, i | s'.At(t, i) ensures FrameMatches(s'.stacks[t][i], BelowIn(s', t, i)) {
          assert s.At(t, i) && BelowIn(s', t, i) == BelowIn(s, t, i);
        }
      }
    }

    // ----- Scheduling -----

    // set_next_process.
    method SetNextProcess(t: int)
      requires Valid() && 0 <= t < TOTAL_TERMINALS
      modifies this
      ensures Valid()
      ensures abs == old(abs).(current := t)
    {
      hide FrameMatches, PageTables.Valid, StacksMatch, SlotsMatch, TopsMatch, PagesMatch;
      SameStacksMatch(abs, abs.(current := t));
      currentTerminal := t;
      abs := abs.(current := t);
    }

    // The search loop and the rest of schedule_next_process.
    method Dispatch() returns (o: Outcome)
      requires Valid()
      modifies this
      ensures Valid()
      ensures (abs, o) == ProcessModel.Dispatch(old(abs))
    {
      hide FrameMatches, PageTables.Valid, StacksMatch, System.Distinct;
      var nextNum := Advance();
      var next := Running();
      if nextNum == 0 || next == null { return Returned(-1); }
      assert nextNum == abs.Top(abs.current).pid;
      if nextNum - 1 >= TASK_NUMBER { assert false; }
      TopRegisters(abs);
      var nextEsp := next.schedEsp;
      var nextEbp := next.schedEbp;
      if nextEsp == 0 || nextEbp == 0 { return Returned(-1); }
      Continue(nextNum);
      o := Resumed(Regs(nextEsp, nextEbp));
    }

    lemma TopRegisters(s: System)
      requires Layout() && s.Shape() && s.Distinct() && StacksMatch(s) && s.Active(s.current)
      ensures 1 <= s.Top(s.current).pid <= MAX_PCB_NUM
      ensures var p := area[s.Top(s.current).pid - 1];
        p.pid == s.Top(s.current).pid && Regs(p.schedEsp, p.schedEbp) == s.Top(s.current).sched
    {
      hide StacksMatch, System.Distinct, FilesMatch;
      FrameAt(s, s.current, |s.stacks[s.current]| - 1);
    }

    method Advance() returns (nextNum: int)
      requires Valid()
      modifies this
      ensures Valid()
      ensures abs == old(abs).(current := NextTerminal(old(abs), old(abs).current, TOTAL_TERMINALS))
      ensures nextNum == if abs.Active(abs.current) then abs.Top(abs.current).pid else 0
    {
      hide FrameMatches, PageTables.Valid, StacksMatch, SlotsMatch, PagesMatch, System.Distinct, TopsMatch;
      nextNum := 0;
      ghost var s := abs;
      ghost var target := NextTerminal(s, s.current, TOTAL_TERMINALS);
      var i := 0;
      while i < TOTAL_TERMINALS
        invariant 0 <= i <= TOTAL_TERMINALS
        invariant Valid() && abs == s.(current := currentTerminal)
        invariant i < TOTAL_TERMINALS ==> target == NextTerminal(s, currentTerminal, TOTAL_TERMINALS - i)
        invariant i == TOTAL_TERMINALS ==> target == currentTerminal && nextNum == pcbNum[currentTerminal]
      {
        SetNextProcess((currentTerminal + 1) % TOTAL_TERMINALS);
        nextNum := pcbNum[currentTerminal];
        ActiveHasNumber(abs);
        if nextNum != 0 { break; }
        i := i + 1;
      }
      ActiveHasNumber(abs);
    }

    lemma ActiveHasNumber(s: System)
      requires Layout() && s.Shape() && s.Distinct() && TopsMatch(s)
      ensures forall t :: 0 <= t < TOTAL_TERMINALS ==> pcbNum[t] == if s.Active(t) then s.Top(t).pid else 0
      ensures forall t :: 0 <= t < TOTAL_TERMINALS ==> (s.Active(t) <==> pcbNum[t] != 0)
    {
      forall t | 0 <= t < TOTAL_TERMINALS && s.Active(t) ensures pcbNum[t] != 0 {
        assert s.At(t, |s.stacks[t]| - 1);
      }
    }

    // t is the terminal to launch, or -1 on a timer tick. The shell is a known program.
    method ScheduleNextProcess(t: int, regs: Regs) returns (o: Outcome)
      requires Valid() && -1 <= t < TOTAL_TERMINALS
      modifies Repr()
      ensures Valid()
      ensures (abs, o) == if t == -1 then Tick(old(abs), regs) else Launch(old(abs), t, regs)
    {
      hide FrameMatches, PageTables.Valid, StacksMatch, System.Distinct, FreeSlot, SlotsMatch, PagesMatch;
      var curr := Running();
      if curr == null { return Returned(-1); }
      Preempt(curr, regs);
      if t >= 0 {
        Start(t);
        o := Execute(true, regs);
        if o.Entered? { return; }
      }
      o := Dispatch();
    }

    // Marks the terminal as running a shell and makes it the scheduled one.
    method Start(t: int)
      requires Valid() && 0 <= t < TOTAL_TERMINALS
      modifies this, runShell
      ensures Valid()
      ensures abs == old(abs).(started := old(abs).started[t := true], current := t)
    {
      hide FrameMatches, PageTables.Valid, StacksMatch, SlotsMatch, TopsMatch, PagesMatch;
      ghost var s := abs.(started := abs.started[t := true]);
      SameStacksMatch(abs, s);
      runShell[t] := true;
      abs := s;
      SetNextProcess(t);
    }

    // ----- Terminal switch -----

    // What the remapping of a slot does, in terms of the frame that owns it.
    lemma RemappedAt(s: System, k: int, next: int)
      requires Layout() && s.Shape() && s.Distinct() && StacksMatch(s) && SlotsMatch(s) && 0 <= k < TASK_NUMBER
      ensures var r := Remapped(s, s.visible, next)[k];
        if k < MAX_PCB_NUM && pcbPtr[k] != null then
          r == (if pcbPtr[k].terminalNumber == next then VIDEO_FRAME
                else if pcbPtr[k].terminalNumber == s.visible then BackingFrame(s.visible)
                else s.page0[k])
        else r == s.page0[k]
    {
      hide FilesMatch, StacksMatch, System.Distinct, Remapped;
      assert k < MAX_PCB_NUM ==> pcbPtr[k] == if s.Live(k + 1) then area[k] else null;
      hide SlotsMatch;
      if s.Live(k + 1) {
        var t, i :| s.At(t, i) && s.stacks[t][i].pid == k + 1;
        FrameAt(s, t, i);
        RemappedLive(s, s.visible, next, t, i);
      } else {
        RemappedFree(s, s.visible, next, k);
      }
    }

    // remap_page: the processes of the terminal that leaves the screen write to
    // its backing page, those of the terminal that comes to the screen write to it.
    method RemapPage(previous: int, next: int)
      requires Valid() && previous == abs.visible
      modifies tables.vidmem
      ensures PagesMatch(Remapped(abs, previous, next))
      ensures StacksMatch(abs) && SlotsMatch(abs) && TopsMatch(abs) && RegistersMatch(abs)
    {
      hide FrameMatches, PageTables.Valid, System.Distinct, StacksMatch, SlotsMatch, TopsMatch, Remapped;
      ghost var r := Remapped(abs, previous, next);
      for i := 0 to MAX_PCB_NUM
        invariant tables.Valid() && StacksMatch(abs) && SlotsMatch(abs) && TopsMatch(abs) && RegistersMatch(abs)
        invariant forall k :: 0 <= k < i ==> tables.vidmem[k, 0].base == r[k]
        invariant forall k :: i <= k < TASK_NUMBER ==> tables.vidmem[k, 0].base == abs.page0[k]
      {
        RemappedAt(abs, i, next);
        if pcbPtr[i] != null {
          if pcbPtr[i].terminalNumber == previous {
            tables.SetPage0(i, (VIDEO + (previous + 1) * FOUR_KB) / FOUR_KB);
          }
          if pcbPtr[i].terminalNumber == next {
            tables.SetPage0(i, VIDEO / FOUR_KB);
          }
        }
      }
      forall k | MAX_PCB_NUM <= k < TASK_NUMBER ensures r[k] == abs.page0[k] { RemappedAt(abs, k, next); }
    }

    // Puts terminal t on the screen: the remapping and the new terminal_number.
    method Show(t: int)
      requires Valid() && 0 <= t < TOTAL_TERMINALS
      modifies this, tables.vidmem
      ensures Valid()
      ensures abs == old(abs).(page0 := Remapped(old(abs), old(abs).visible, t), visible := t)
    {
      hide FrameMatches, PageTables.Valid, System.Distinct, StacksMatch, SlotsMatch, TopsMatch, PagesMatch, Remapped;
      ghost var s := abs.(page0 := Remapped(abs, abs.visible, t), visible := t);
      RemapPage(terminalNumber, t);
      SameStacksMatch(abs, s);
      terminalNumber := t;
      abs := s;
    }

    // The process side of Alt+F(t+1) in kb_handler.
    method Switch(t: int, regs: Regs) returns (o: Outcome)
      requires Valid() && 0 <= t < TOTAL_TERMINALS
      modifies Repr()
      ensures Valid()
      ensures (abs, o) == ProcessModel.Switch(old(abs), t, regs)
    {
      hide FrameMatches, PageTables.Valid, System.Distinct, StacksMatch, SlotsMatch, TopsMatch, PagesMatch;
      if terminalNumber == t { return Returned(0); }
      Show(t);
      assert runShell[..][t] == runShell[t];
      if runShell[t] { return Returned(0); }
      o := ScheduleNextProcess(t, regs);
    }

    // ----- Opening files -----

    // Fills descriptor fd of a process for a directory entry.
    method OpenDescriptor(pcb: Pcb, num: int, fd: int, dentry: Dentry, ghost s: System)
      requires Layout() && s.Distinct() && StacksMatch(s)
      requires 1 <= num <= MAX_PCB_NUM && pcb == area[num - 1] && 0 <= fd < PCB_FILE_NUMBER
      requires dentry.kind in {Rtc, Directory, Regular}
      modifies pcb.file, fops[num - 1]
      ensures FiledMatch(s, num, fd, InUse(dentry.kind, if dentry.kind == Regular then dentry.inode else 0, 0))
    {
      if dentry.kind == Rtc {
        fops[num - 1][fd] := FileOps(ReadRtc, WriteRtc, OpenRtc, CloseRtc);
      } else if dentry.kind == Directory {
        fops[num - 1][fd] := FileOps(DirectoryRead, DirectoryWrite, DirectoryOpen, DirectoryClose);
      } else {
        fops[num - 1][fd] := FileOps(ReadFile, WriteFile, OpenRegular, CloseRegular);
      }
      var inodePtr := if dentry.kind == Regular then InodePointer(bbStart, dentry.inode) else 0;
      pcb.file[fd] := FileDesc(Some((num - 1, fd)), inodePtr, 0, 1);
      var f := InUse(dentry.kind, if dentry.kind == Regular then dentry.inode else 0, 0);
      forall t, i | s.At(t, i) ensures FrameMatches(FiledFrame(s.stacks[t][i], num, fd, f), BelowIn(s, t, i)) {
        assert old(FrameMatches(s.stacks[t][i], BelowIn(s, t, i)));
      }
    }

    method OpenUnused(pcb: Pcb, fd: int, dentry: Dentry)
      requires Valid() && abs.Active(abs.current) && dentry.kind in {Rtc, Directory, Regular}
      requires 1 <= abs.Top(abs.current).pid <= MAX_PCB_NUM && pcb == area[abs.Top(abs.current).pid - 1]
      requires 0 <= fd < PCB_FILE_NUMBER == |abs.Top(abs.current).files|
      modifies this, blocks
      ensures Valid()
      ensures abs == WithFiles(old(abs), old(abs).Top(old(abs).current).files[
        fd := InUse(dentry.kind, if dentry.kind == Regular then dentry.inode else 0, 0)])
    {
      hide FrameMatches, PageTables.Valid, StacksMatch, FiledMatch;
      ghost var s := abs;
      ghost var f := InUse(dentry.kind, if dentry.kind == Regular then dentry.inode else 0, 0);
      var num := pcbNum[currentTerminal];
      OpenDescriptor(pcb, num, fd, dentry, s);
      FilesRetopped(s, fd, f);
      hide SlotsMatch, TopsMatch, PagesMatch;
      abs := WithFiles(s, s.Top(s.current).files[fd := f]);
    }

    // found: what read_dentry_by_name says about the name.
    method Open(found: Option<Dentry>) returns (r: int)
      requires Valid() && abs.Active(abs.current)
      requires found.Some? ==> found.value.kind in {Rtc, Directory, Regular}
      modifies this, blocks
      ensures Valid()
      ensures |old(abs).Top(old(abs).current).files| == PCB_FILE_NUMBER
      ensures var (files, result) := OpenFile(old(abs).Top(old(abs).current).files, found);
        abs == WithFiles(old(abs), files) && r == result
    {
      hide FrameMatches, PageTables.Valid, StacksMatch, SlotsMatch, TopsMatch, PagesMatch, System.Distinct;
      SameFiles(abs);
      TopFile(abs, 0);
      var pcb := Running();
      if pcb == null { return -1; }
      ghost var files := abs.Top(abs.current).files;
      for i := FD_START to PCB_FILE_NUMBER
        invariant Valid() && abs == old(abs)
        invariant FirstUnused(files, FD_START) == FirstUnused(files, i)
      {
        TopFile(abs, i);
        if pcb.file[i].flag == 0 {
          if found == None { return -1; }
          OpenUnused(pcb, i, found.value);
          return i;
        }
      }
      return -1;
    }

    // ----- What callers may read off a valid kernel -----

    lemma Registers()
      requires Valid()
      ensures currentTerminal == abs.current && terminalNumber == abs.visible && cr3 == abs.cr3
      ensures runShell.Length == TOTAL_TERMINALS && abs.Shape()
    {
    }

    // The page, counted from VIDEO, that a store of the running process to its
    // video address reaches.
    method OutputPage() returns (page: int)
      requires Valid() && 0 <= abs.cr3 < TASK_NUMBER
      ensures Valid() && page == abs.page0[abs.cr3] - VIDEO_FRAME
      ensures tables.Valid() && tables.Walk(cr3, USER_VIDEO_ADDR) == Mapped(VIDEO + page * FOUR_KB, true, true)
    {
      page := tables.vidmem[cr3, 0].base - VIDEO_FRAME;
      tables.WalkIsClosedForm(cr3, USER_VIDEO_ADDR);
    }

    // A descriptor in use, of any live process, points at an operation table
    // entry of its own, which holds the four operations for the type of its file.
    lemma OperationsMatch(t: int, i: int, fd: int)
      requires Valid() && abs.At(t, i) && 0 <= fd < PCB_FILE_NUMBER
      ensures var f := abs.stacks[t][i];
        && 1 <= f.pid <= MAX_PCB_NUM && |f.files| == PCB_FILE_NUMBER
        && var d := area[f.pid - 1].file[fd];
           && (d.flag != 0 <==> f.files[fd] != Unused)
           && (d.flag != 0 ==> d.fop == Some((f.pid - 1, fd)) && Operates(fops[f.pid - 1][fd], f.files[fd].kind))
    {
      hide StacksMatch, SlotsMatch, TopsMatch, PagesMatch, System.Distinct, PageTables.Valid;
      FrameAt(abs, t, i);
    }

    // write, up to the operation that it calls: None if the descriptor is refused.
    method WriteTarget(fd: int) returns (op: Option<WriteOp>)
      requires Valid() && abs.Active(abs.current)
      ensures Valid() && |abs.Top(abs.current).files| == PCB_FILE_NUMBER
      ensures var files := abs.Top(abs.current).files;
        op == if fd < 0 || fd >= 8 || files[fd] == Unused then None
              else match files[fd].kind
                case Stdin => Some(WriteDefault)
                case Stdout => Some(WriteTerminal)
                case Rtc => Some(WriteRtc)
                case Directory => Some(DirectoryWrite)
                case Regular => Some(WriteFile)
    {
      hide FrameMatches, PageTables.Valid, StacksMatch, SlotsMatch, TopsMatch, PagesMatch, System.Distinct;
      TopFile(abs, fd);
      if fd < 0 || fd >= PCB_FILE_NUMBER { return None; }
      var pcb := Running();
      if pcb == null { return None; }
      if pcb.file[fd].flag == 0 { return None; }
      return Some(fops[pcb.file[fd].fop.value.0][pcb.file[fd].fop.value.1].write);
    }

    // ----- The parent pointers -----

    // The blocks met by following parent pointers from p, youngest last.
    ghost function Walk(p: Pcb?, fuel: nat): seq<Pcb>
      reads blocks
    {
      if p == null || p !in blocks || fuel == 0 then [] else Walk(p.parent, fuel - 1) + [p]
    }

    lemma {:induction false} WalkFrom(t: int, i: int, fuel: nat)
      requires Layout() && abs.Shape() && abs.Distinct() && StacksMatch(abs) && abs.At(t, i) && fuel > i
      ensures 1 <= abs.stacks[t][i].pid <= MAX_PCB_NUM
      ensures var w := Walk(area[abs.stacks[t][i].pid - 1], fuel);
        |w| == i + 1 && forall j :: 0 <= j <= i ==>
          abs.At(t, j) && w[j].pid == abs.stacks[t][j].pid && 1 <= w[j].pid <= MAX_PCB_NUM && w[j] == area[w[j].pid - 1]
      decreases i
    {
      hide StacksMatch, System.Distinct, FilesMatch;
      FrameAt(abs, t, i);
      if i > 0 {
        assert abs.At(t, i - 1);
        WalkFrom(t, i - 1, fuel - 1);
      }
    }

    // Following the parent pointers from the youngest process of terminal t
    // ends, and meets exactly the processes of stack t, each in its own slot.
    lemma WalkIsStack(t: int, fuel: nat)
      requires Valid() && 0 <= t < TOTAL_TERMINALS && fuel >= |abs.stacks[t]|
      ensures 0 <= pcbNum[t] <= MAX_PCB_NUM
      ensures var w := Walk(if pcbNum[t] == 0 then null else pcbPtr[pcbNum[t] - 1], fuel);
        |w| == |abs.stacks[t]| && forall j :: 0 <= j < |w| ==>
          w[j].pid == abs.stacks[t][j].pid && 1 <= w[j].pid <= MAX_PCB_NUM && w[j] == area[w[j].pid - 1]
    {
      hide StacksMatch, System.Distinct, FrameMatches, PageTables.Valid, Walk;
      if abs.Active(t) {
        var d := |abs.stacks[t]| - 1;
        AtIsLive(abs, t, d);
        WalkFrom(t, d, fuel);
      } else {
        NothingToWalk(fuel);
      }
    }

    lemma NothingToWalk(fuel: nat)
      ensures Walk(null, fuel) == []
    {
    }

    // The processes met from the youngest of terminal t on.
    ghost function Chain(t: int): seq<Pcb>
      requires Layout() && 0 <= t < TOTAL_TERMINALS
      reads pcbNum, pcbPtr, blocks
    {
      Walk(if 1 <= pcbNum[t] <= MAX_PCB_NUM then pcbPtr[pcbNum[t] - 1] else null, MAX_PCB_NUM)
    }

    // No stack is longer than the table.
    lemma StackFits(s: System, t: int)
      requires s.Shape() && s.Distinct() && 0 <= t < TOTAL_TERMINALS
      ensures |s.stacks[t]| <= MAX_PCB_NUM
    {
      assert forall i :: 0 <= i < |s.stacks[t]| ==> s.At(t, i);
      Pigeonhole(seq(|s.stacks[t]|, i requires 0 <= i < |s.stacks[t]| => s.stacks[t][i].pid), MAX_PCB_NUM);
    }

    lemma ChainIsStack(t: int)
      requires Valid() && 0 <= t < TOTAL_TERMINALS
      ensures |Chain(t)| == |abs.stacks[t]|
      ensures forall j :: 0 <= j < |Chain(t)| ==>
        abs.At(t, j) && 1 <= abs.stacks[t][j].pid <= MAX_PCB_NUM && Chain(t)[j] == area[abs.stacks[t][j].pid - 1]
    {
      hide StacksMatch, SlotsMatch, PagesMatch, System.Distinct, FrameMatches, PageTables.Valid, Walk;
      StackFits(abs, t);
      WalkIsStack(t, MAX_PCB_NUM);
      ActiveHasNumber(abs);
    }

    // Slot k + 1 is met at place j of the walk of terminal t.
    ghost predicate MetAt(k: int, t: int, j: int)
      requires Layout() && 0 <= k < MAX_PCB_NUM
      reads pcbNum, pcbPtr, blocks
    {
      0 <= t < TOTAL_TERMINALS && 0 <= j < |Chain(t)| && Chain(t)[j] == area[k]
    }

    lemma MetIffThere(k: int, t: int, j: int)
      requires Valid() && 0 <= k < MAX_PCB_NUM
      ensures MetAt(k, t, j) <==> abs.At(t, j) && abs.stacks[t][j].pid == k + 1
    {
      hide StacksMatch, SlotsMatch, TopsMatch, PagesMatch, System.Distinct, FrameMatches, PageTables.Valid, Chain;
      if 0 <= t < TOTAL_TERMINALS {
        ChainIsStack(t);
        if 0 <= j < |Chain(t)| {
          var m := abs.stacks[t][j].pid - 1;
          assert Chain(t)[j] == area[m];
          assert m != k ==> area[m] != area[k];
        }
      }
    }

    // A slot is in use exactly when one of the three walks meets it, and then
    // only one walk does, at one place.
    lemma WalksPartitionSlots(k: int)
      requires Valid() && 0 <= k < MAX_PCB_NUM
      ensures pcbPtr[k] != null <==> exists t, j :: MetAt(k, t, j)
      ensures forall t, i, u, j :: MetAt(k, t, i) && MetAt(k, u, j) ==> t == u && i == j
      ensures pcbPtr[k] != null ==> pcbPtr[k] == area[k] && pcbPtr[k].pid == k + 1
    {
      hide StacksMatch, PageTables.Valid, PagesMatch, RegistersMatch, TopsMatch, MetAt;
      forall t, j ensures MetAt(k, t, j) <==> abs.At(t, j) && abs.stacks[t][j].pid == k + 1 { MetIffThere(k, t, j); }
      if abs.Live(k + 1) {
        var t, i :| abs.At(t, i) && abs.stacks[t][i].pid == k + 1;
        hide FilesMatch;
        FrameAt(abs, t, i);
        assert MetAt(k, t, i);
      }
      if t, j :| MetAt(k, t, j) { assert abs.At(t, j); }
    }
  }

  // Different numbers between 1 and n are at most n.
  lemma {:induction false} Pigeonhole(pids: seq<int>, n: nat)
    requires forall i :: 0 <= i < |pids| ==> 1 <= pids[i] <= n
    requires forall i, j :: 0 <= i < j < |pids| ==> pids[i] != pids[j]
    ensures |pids| <= n
  {
    if pids != [] {
      assert 1 <= pids[0] <= n;
      if i :| 0 <= i < |pids| && pids[i] == n {
        Pigeonhole(pids[..i] + pids[i + 1..], n - 1);
      } else {
        Pigeonhole(pids, n - 1);
      }
    }
  }
}
