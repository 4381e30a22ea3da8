// The per-task page tables and the address translation they define
// (32-bit paging, section 4.3 of the Intel SDM, volume 3A).
module Paging {
  import opened Types

  const ENTRIES := 1024
  const START := 0
  const KERNEL := 1
  const PROGRAM := 32
  const USER_VIDEO := 33
  const VIDEO_MEM := 0xB8
  const KERNEL_ADDR := 0x40_0000

  // base is the 20-bit base_address field: bits 31..12 of the entry.
  datatype Pde = Pde(P: bool, RW: bool, US: bool, PS: bool, PCD: bool, G: bool, base: int)
  datatype Pte = Pte(P: bool, RW: bool, US: bool, PCD: bool, G: bool, base: int)

  const ZERO_PDE := Pde(false, false, false, false, false, false, 0)
  const ZERO_PTE := Pte(false, false, false, false, false, 0)
  const NO_PDE := Pde(false, true, false, false, true, false, 0)   // the entries that set_paging leaves unused

  datatype Translation =
    | NotPresent
    | OutsideTables                                  // the directory points at no table of this kernel
    | Mapped(address: int, user: bool, writable: bool)

  // The entries of a page table that set_paging leaves unused.
  function NoPte(i: int): Pte { Pte(false, true, false, true, false, i) }

  function Leaf(d: Pde, e: Pte, va: int): Translation {
    if !e.P then NotPresent
    else Mapped(e.base * FOUR_KB + va % FOUR_KB, d.US && e.US, d.RW && e.RW)
  }

  // What every virtual address of task i means, when its user video page 0
  // has been given the frame page0.
  function ClosedForm(i: int, va: int, page0: int): Translation {
    if va / FOUR_KB == VIDEO_MEM then
      Mapped(va, false, true)
    else if FOUR_MB <= va < 2 * FOUR_MB then
      Mapped(va, false, false)
    else if PROGRAM * FOUR_MB <= va < USER_VIDEO * FOUR_MB then
      Mapped(EIGHT_MB + i * FOUR_MB + (va - PROGRAM * FOUR_MB), true, true)
    else if USER_VIDEO_ADDR <= va < USER_VIDEO_ADDR + FOUR_KB then
      Mapped(page0 * FOUR_KB + (va - USER_VIDEO_ADDR), true, true)
    else if USER_VIDEO_ADDR + FOUR_KB <= va < USER_VIDEO_ADDR + 4 * FOUR_KB then
      Mapped(VIDEO + (va - USER_VIDEO_ADDR), true, true)
    else
      NotPresent
  }

  class PageTables {
    const pd: array2<Pde>
    const pt: array2<Pte>
    const vidmem: array2<Pte>
    const ptFrame: int       // frame number of pt[0]; each row of a table fills one frame
    const vidmemFrame: int   // frame number of vidmem_pt[0]

    ghost predicate Shape() {
      && pd.Length0 == pt.Length0 == vidmem.Length0 == TASK_NUMBER
      && pd.Length1 == pt.Length1 == vidmem.Length1 == ENTRIES
      && pt != vidmem
      && 0 <= ptFrame && 0 <= vidmemFrame
      && (ptFrame + TASK_NUMBER <= vidmemFrame || vidmemFrame + TASK_NUMBER <= ptFrame)
    }

    // The walk the processor makes for a virtual address when cr3 holds pd[i].
    ghost function Walk(i: int, va: int): Translation
      requires Shape() && 0 <= i < TASK_NUMBER && 0 <= va < U32
      reads pd, pt, vidmem
    {
      var d := pd[i, va / FOUR_MB];
      var k := va / FOUR_KB % ENTRIES;
      if !d.P then NotPresent
      else if d.PS then Mapped(d.base / ENTRIES * FOUR_MB + va % FOUR_MB, d.US, d.RW)
      else if ptFrame <= d.base < ptFrame + TASK_NUMBER then Leaf(d, pt[d.base - ptFrame, k], va)
      else if vidmemFrame <= d.base < vidmemFrame + TASK_NUMBER then Leaf(d, vidmem[d.base - vidmemFrame, k], va)
      else OutsideTables
    }

    function DirectoryEntry(i: int, k: int): Pde {
      if k == START then Pde(true, true, false, false, true, true, ptFrame + i)
      else if k == KERNEL then Pde(true, false, false, true, true, true, ENTRIES)
      else if k == PROGRAM then Pde(true, true, true, true, true, false, (2 + i) * ENTRIES)
      else if k == USER_VIDEO then Pde(true, true, true, false, true, false, vidmemFrame + i)
      else NO_PDE
    }

    ghost predicate PtReady(i: int)
      requires Shape() && 0 <= i < TASK_NUMBER
      reads pt
    {
      forall k :: 0 <= k < ENTRIES ==>
        if k == VIDEO_MEM then pt[i, k] == Pte(true, true, false, true, true, VIDEO_FRAME) else pt[i, k] == NoPte(i)
    }

    ghost predicate VidmemReady(i: int)
      requires Shape() && 0 <= i < TASK_NUMBER
      reads vidmem
    {
      && vidmem[i, 0] == Pte(true, true, true, false, false, vidmem[i, 0].base)
      && (forall k :: 1 <= k < 4 ==> vidmem[i, k] == Pte(true, true, true, false, false, VIDEO_FRAME + k))
      && (forall k :: 4 <= k < ENTRIES ==> vidmem[i, k] == ZERO_PTE)
    }

    // What set_paging establishes and what remapping keeps.
    ghost predicate Valid()
      reads pd, pt, vidmem
      ensures Valid() ==> Shape()
    {
      && Shape()
      && (forall i, k :: 0 <= i < TASK_NUMBER && 0 <= k < ENTRIES ==> pd[i, k] == DirectoryEntry(i, k))
      && (forall i :: 0 <= i < TASK_NUMBER ==> PtReady(i) && VidmemReady(i))
    }

    // The static tables start out zeroed; ptFrame and vidmemFrame are chosen by the linker.
    constructor (ptFrame: int, vidmemFrame: int)
      requires 0 <= ptFrame && 0 <= vidmemFrame
      requires ptFrame + TASK_NUMBER <= vidmemFrame || vidmemFrame + TASK_NUMBER <= ptFrame
      ensures Shape() && fresh(pd) && fresh(pt) && fresh(vidmem)
      ensures forall i, k :: 0 <= i < TASK_NUMBER && 0 <= k < ENTRIES ==>
        pd[i, k] == ZERO_PDE && pt[i, k] == ZERO_PTE && vidmem[i, k] == ZERO_PTE
    {
      pd := new Pde[TASK_NUMBER, ENTRIES]((_, _) => ZERO_PDE);
      pt := new Pte[TASK_NUMBER, ENTRIES]((_, _) => ZERO_PTE);
      vidmem := new Pte[TASK_NUMBER, ENTRIES]((_, _) => ZERO_PTE);
      this.ptFrame := ptFrame;
      this.vidmemFrame := vidmemFrame;
    }

    method ClearDirectories()
      requires Shape()
      requires forall i, k :: 0 <= i < TASK_NUMBER && 0 <= k < ENTRIES ==> pd[i, k] == ZERO_PDE
      modifies pd
      ensures forall i, k :: 0 <= i < TASK_NUMBER && 0 <= k < ENTRIES ==> pd[i, k] == NO_PDE
    {
      for j := 0 to TASK_NUMBER
        invariant forall i, k :: j <= i < TASK_NUMBER && 0 <= k < ENTRIES ==> pd[i, k] == ZERO_PDE
        invariant forall i, k :: 0 <= i < j && 0 <= k < ENTRIES ==> pd[i, k] == NO_PDE
      {
        for i := 0 to ENTRIES
          invariant forall a, k :: j < a < TASK_NUMBER && 0 <= k < ENTRIES ==> pd[a, k] == ZERO_PDE
          invariant forall k :: i <= k < ENTRIES ==> pd[j, k] == ZERO_PDE
          invariant forall a, k :: 0 <= a < j && 0 <= k < ENTRIES ==> pd[a, k] == NO_PDE
          invariant forall k :: 0 <= k < i ==> pd[j, k] == NO_PDE
        {
          pd[j, i] := pd[j, i].(P := false, RW := true, US := false, PCD := true, base := 0);
        }
      }
    }

    method ClearTables()
      requires Shape()
      requires forall i, k :: 0 <= i < TASK_NUMBER && 0 <= k < ENTRIES ==> pt[i, k] == ZERO_PTE
      modifies pt
      ensures forall i, k :: 0 <= i < TASK_NUMBER && 0 <= k < ENTRIES ==> pt[i, k] == NoPte(i)
    {
      for i := 0 to TASK_NUMBER
        invariant forall a, k :: 0 <= a < i && 0 <= k < ENTRIES ==> pt[a, k] == NoPte(a)
        invariant forall a, k :: i <= a < TASK_NUMBER && 0 <= k < ENTRIES ==> pt[a, k] == ZERO_PTE
      {
        for j := 0 to ENTRIES
          invariant forall a, k :: 0 <= a < i && 0 <= k < ENTRIES ==> pt[a, k] == NoPte(a)
          invariant forall k :: 0 <= k < j ==> pt[i, k] == NoPte(i)
          invariant forall k :: j <= k < ENTRIES ==> pt[i, k] == ZERO_PTE
          invariant forall a, k :: i < a < TASK_NUMBER && 0 <= k < ENTRIES ==> pt[a, k] == ZERO_PTE
        {
          pt[i, j] := pt[i, j].(P := false, RW := true, US := false, PCD := true, base := i);
        }
      }
    }

    method MapVideo(i: int)
      requires Shape() && 0 <= i < TASK_NUMBER
      requires forall k :: 0 <= k < ENTRIES ==> vidmem[i, k] == ZERO_PTE
      modifies vidmem
      ensures VidmemReady(i) && vidmem[i, 0].base == VIDEO_FRAME
      ensures forall a, k :: 0 <= a < TASK_NUMBER && a != i && 0 <= k < ENTRIES ==> vidmem[a, k] == old(vidmem[a, k])
    {
      vidmem[i, 0] := vidmem[i, 0].(P := true, RW := true, US := true, base := VIDEO / FOUR_KB);
      vidmem[i, 1] := vidmem[i, 1].(P := true, RW := true, US := true, base := (VIDEO + FOUR_KB) / FOUR_KB);
      vidmem[i, 2] := vidmem[i, 2].(P := true, RW := true, US := true, base := (VIDEO + 2 * FOUR_KB) / FOUR_KB);
      vidmem[i, 3] := vidmem[i, 3].(P := true, RW := true, US := true, base := (VIDEO + 3 * FOUR_KB) / FOUR_KB);
    }

    method MapDirectory(i: int)
      requires Shape() && 0 <= i < TASK_NUMBER
      requires forall k :: 0 <= k < ENTRIES ==> pd[i, k] == NO_PDE && pt[i, k] == NoPte(i)
      modifies pd, pt
      ensures forall k :: 0 <= k < ENTRIES ==> pd[i, k] == DirectoryEntry(i, k)
      ensures PtReady(i)
      ensures forall a, k :: 0 <= a < TASK_NUMBER && a != i && 0 <= k < ENTRIES ==>
        pd[a, k] == old(pd[a, k]) && pt[a, k] == old(pt[a, k])
    {
      pd[i, START] := pd[i, START].(P := true, RW := true, US := false, PS := false, G := true, base := ptFrame + i);
      pt[i, VIDEO_MEM] := pt[i, VIDEO_MEM].(P := true, RW := true, US := false, G := true, base := VIDEO / FOUR_KB);
      pd[i, KERNEL] := pd[i, KERNEL].(P := true, RW := false, US := false, PS := true, G := true, base := KERNEL_ADDR / FOUR_MB * ENTRIES);
      pd[i, PROGRAM] := pd[i, PROGRAM].(P := true, RW := true, US := true, PS := true,
                                        base := (EIGHT_MB + i * FOUR_MB) / FOUR_MB * ENTRIES);
      pd[i, USER_VIDEO] := pd[i, USER_VIDEO].(P := true, RW := true, US := true, PS := false, base := vidmemFrame + i);
    }

    method SetPaging()
      requires Shape()
      requires forall i, k :: 0 <= i < TASK_NUMBER && 0 <= k < ENTRIES ==>
        pd[i, k] == ZERO_PDE && pt[i, k] == ZERO_PTE && vidmem[i, k] == ZERO_PTE
      modifies pd, pt, vidmem
      ensures Valid()
      ensures forall i :: 0 <= i < TASK_NUMBER ==> vidmem[i, 0].base == VIDEO_FRAME
    {
      ClearDirectories();
      ClearTables();
      for i := 0 to TASK_NUMBER
        invariant forall a, k :: 0 <= a < i && 0 <= k < ENTRIES ==> pd[a, k] == DirectoryEntry(a, k)
        invariant forall a :: 0 <= a < i ==> PtReady(a) && VidmemReady(a) && vidmem[a, 0].base == VIDEO_FRAME
        invariant forall a, k :: i <= a < TASK_NUMBER && 0 <= k < ENTRIES ==>
          pd[a, k] == NO_PDE && pt[a, k] == NoPte(a) && vidmem[a, k] == ZERO_PTE
      {
        label before:
        MapVideo(i);
        MapDirectory(i);
        forall a | 0 <= a < i ensures PtReady(a) && VidmemReady(a) {
          assert old@before(PtReady(a) && VidmemReady(a));
        }
      }
    }

    // Points user video page 0 of a task at a frame: restore_page, and one
    // assignment of remap_page.
    method SetPage0(i: int, frame: int)
      requires Valid() && 0 <= i < TASK_NUMBER
      modifies vidmem
      ensures Valid()
      ensures vidmem[i, 0].base == frame
      ensures forall a :: 0 <= a < TASK_NUMBER && a != i ==> vidmem[a, 0].base == old(vidmem[a, 0].base)
    {
      vidmem[i, 0] := vidmem[i, 0].(base := frame);
      forall a | 0 <= a < TASK_NUMBER ensures PtReady(a) && VidmemReady(a) {
        assert old(PtReady(a) && VidmemReady(a));
      }
    }

    // The two-level walk of every task at every 32-bit address.
    lemma WalkIsClosedForm(i: int, va: int)
      requires Valid() && 0 <= i < TASK_NUMBER && 0 <= va < U32
      ensures Walk(i, va) == ClosedForm(i, va, vidmem[i, 0].base)
    {
      var d, k := va / FOUR_MB, va / FOUR_KB % ENTRIES;
      assert pd[i, d] == DirectoryEntry(i, d);
      assert PtReady(i) && VidmemReady(i);
    }
  }

  predicate InKernelOrVideo(pa: int) {
    FOUR_MB <= pa < 2 * FOUR_MB || VIDEO <= pa < VIDEO + 4 * FOUR_KB
  }

  // Two tasks reach the same byte of physical memory only in the kernel page
  // or in the four video pages; a program frame belongs to one task.
  lemma TasksShareOnlyKernelAndVideo(i: int, va: int, f: int, j: int, vb: int, g: int)
    requires 0 <= i < TASK_NUMBER && 0 <= j < TASK_NUMBER && i != j
    requires 0 <= va < U32 && 0 <= vb < U32
    requires VIDEO_FRAME <= f < VIDEO_FRAME + 4 && VIDEO_FRAME <= g < VIDEO_FRAME + 4
    requires ClosedForm(i, va, f).Mapped? && ClosedForm(j, vb, g).Mapped?
    requires ClosedForm(i, va, f).address == ClosedForm(j, vb, g).address
    ensures InKernelOrVideo(ClosedForm(i, va, f).address)
  {
  }

  // User code reaches its own program frame and the video pages, never the
  // kernel page.
  lemma UserReach(i: int, va: int, f: int)
    requires 0 <= i < TASK_NUMBER && 0 <= va < U32 && VIDEO_FRAME <= f < VIDEO_FRAME + 4
    requires ClosedForm(i, va, f).Mapped? && ClosedForm(i, va, f).user
    ensures var pa := ClosedForm(i, va, f).address;
      || EIGHT_MB + i * FOUR_MB <= pa < EIGHT_MB + (i + 1) * FOUR_MB
      || VIDEO <= pa < VIDEO + 4 * FOUR_KB
  {
  }

  // Two user addresses of a task mean the same byte of its program frame only
  // if they are equal, and every byte of the frame has an address.
  lemma ProgramIsOneToOne(i: int, va: int, vb: int, f: int, pa: int)
    requires 0 <= i < TASK_NUMBER && VIDEO_FRAME <= f < VIDEO_FRAME + 4
    requires EIGHT_MB + i * FOUR_MB <= pa < EIGHT_MB + (i + 1) * FOUR_MB
    requires 0 <= va < U32 && 0 <= vb < U32
    ensures ClosedForm(i, va, f) == Mapped(pa, true, true) && ClosedForm(i, vb, f) == Mapped(pa, true, true) ==> va == vb
    ensures ClosedForm(i, PROGRAM * FOUR_MB + (pa - EIGHT_MB - i * FOUR_MB), f) == Mapped(pa, true, true)
  {
  }

  // ----- Kernel stacks -----

  // Where execute puts the control block of slot n: its kernel stack pointer
  // with PCB_MASK applied.
  function PcbAddress(n: int): int { Esp0(n) / STACK_SIZE * STACK_SIZE }

  // Stack and control block of a slot share one 8 KB block; the blocks of
  // different slots do not meet, and all lie in the kernel page.
  lemma StackBlocks(n: int, m: int)
    requires 1 <= n <= MAX_PCB_NUM && 1 <= m <= MAX_PCB_NUM
    ensures PcbAddress(n) + STACK_SIZE - 1 == Esp0(n)
    ensures FOUR_MB <= PcbAddress(n) && Esp0(n) < EIGHT_MB
    ensures n < m ==> Esp0(m) < PcbAddress(n)
    ensures PcbAddress(n) == PcbAddress(m) ==> n == m
  {
  }

  // ----- The tables and the translation in numbers -----

  // Every address of task i, in numbers.
  lemma TranslationInNumbers(i: int, va: int, page0: int)
    requires 0 <= i < 10 && 0 <= va < 0x1_0000_0000
    ensures ClosedForm(i, va, page0) ==
      if 0xB8000 <= va < 0xB9000 then Mapped(va, false, true)
      else if 0x400000 <= va < 0x800000 then Mapped(va, false, false)
      else if 0x8000000 <= va < 0x8400000 then Mapped(va - 0x8000000 + 0x800000 + 0x400000 * i, true, true)
      else if 0x8400000 <= va < 0x8401000 then Mapped(va - 0x8400000 + 0x1000 * page0, true, true)
      else if 0x8401000 <= va < 0x8404000 then Mapped(va - 0x8400000 + 0xB8000, true, true)
      else NotPresent
  {
  }

  // The entries of task i, in numbers: present, writable, user, large, cache
  // disabled and global bits, and the base.
  lemma EntriesInNumbers(tables: PageTables, i: int, k: int)
    requires tables.Valid() && 0 <= i < 10 && 0 <= k < 1024
    ensures tables.pd[i, k] ==
      if k == 0 then Pde(true, true, false, false, true, true, tables.ptFrame + i)
      else if k == 1 then Pde(true, false, false, true, true, true, 0x400)
      else if k == 32 then Pde(true, true, true, true, true, false, 0x800 + 0x400 * i)
      else if k == 33 then Pde(true, true, true, false, true, false, tables.vidmemFrame + i)
      else Pde(false, true, false, false, true, false, 0)
    ensures tables.pt[i, k] ==
      if k == 0xB8 then Pte(true, true, false, true, true, 0xB8) else Pte(false, true, false, true, false, i)
    ensures tables.vidmem[i, k] ==
      if k == 0 then Pte(true, true, true, false, false, tables.vidmem[i, 0].base)
      else if k < 4 then Pte(true, true, true, false, false, 0xB8 + k)
      else Pte(false, false, false, false, false, 0)
  {
    assert tables.PtReady(i) && tables.VidmemReady(i);
  }
}
