# A model of the kernel, and what it keeps

The kernel runs up to six processes on three terminals of one PC screen. This project models its
four stateful parts as they update their own fields, and proves what they keep over whole runs:

* **Processes.** `process_table.dfy` holds the slot table, the control blocks with their parent
  pointers, `pcb_num`, the descriptors, the page tables and the processor's registers as a class
  that `execute`, `halt`, the timer and Alt+F1..F3 update in place. Each of its methods refines a
  step of `process_model.dfy`, in which every terminal is simply a stack of frames.
  `process_safety.dfy`, `process_runs.dfy` and `process_fairness.dfy` prove the claims about runs,
  and `process_effects.dfy` says what each event changes and what a new process finds.
* **Screens.** `console.dfy` and `line_editor.dfy` give the meaning of text and keys to one page
  and one terminal; `video.dfy` is the code that writes video memory cell by cell; `machine.dfy` and
  `machine_model.dfy` put processes and terminals together. `paging.dfy` gives the page tables
  behind it, as the two-level walk of section 4.3 (32-bit paging) of the Intel SDM, volume 3A.
* **Files.** `file_system.dfy`, `file_reads.dfy` and `directory.dfy` read the block image;
  `process_opens.dfy` and `process_reads.dfy` are open by name and read on the process table, and
  `read_runs.dfy` follows one open file through a whole run.
* **Library.** `memory_copy.dfy`, `strings.dfy` and `number_format.dfy`.

`Machine.System` shows that the invariants can be met: its constructor and `Boot` lead from empty
tables to a booted system, and every other method keeps it going.

Lemmas whose names end in `InNumbers` or `Law`, and some beside them, fix the formats and constants
that the other results share (bytes of the image, cells of the screen, page table entries, addresses,
descriptors, key and character codes) in plain numbers, without the names of this model.

An event (a system call, a timer tick, a key) is one atomic step. System calls run with interrupts
enabled (`idt_gate.S`), so a write may be cut anywhere between two characters: a run is any sequence
of pieces of output, keys, switches, ticks and calls.

## What the code does not do

These follow the code where it departs from its own comments or from what its callers hope for.

* `scheduling.c:99` marks a terminal as started before `execute` can fail. If all six slots are in
  use at the first switch to a terminal, it never gets a shell again
  (`ProcessFairness.FirstSwitchServesIffSlotFree`, `ProcessFairness.LostTerminalIsReachable`).
* `pcb.c:170` records the visible terminal in a new process, while `syscall.c:99` puts the process
  on the stack of the scheduled one. A process created off the screen prints on another terminal's
  page (`ProcessFairness.AlignmentCondition`, `ProcessFairness.MisalignedIsReachable`).
* `file_system.c:148` takes 4097 bytes from each block. A read that crosses a block boundary is
  wrong, but for one lucky byte (`FileSystem.SliceIffInPlace`).
* `file_system.c:120` adds in 32 bits, and a sum that wraps defeats the clamp at the end of the
  file (`FileSystem.ClampIsRightIffNoWrap`).
* `kb.c:565` reads the visible terminal once per write. A terminal switch that cuts the write lets
  its rest move the display's cursor away from the terminal on the screen, or leave it behind
  (`MachineModel.CursorKeptIff`, `MachineModel.CutWriteStraysCursor`).
* `kb.c:941` puts the spaces of a tab into the line but never on the screen, which goes unnoticed
  only where everything is spaces already (`LineEditor.TabIsShownIff`).
* `syscall.c:41` means to close the files of a halting process but selects the unused descriptors,
  which `close` refuses (`ProcessTable.Kernel.CloseUnused`).
* `file_system.c:257` returns the length of a name, so a directory entry with an empty name looks
  like the end of the directory (`Directory.ZeroMeansEnd`).

## Model

| member | source | states |
|---|---|---|
| ProcessSafety.StepKeeps | syscall.c:33-347 | every execute, halt, tick, switch, open, close and read keeps the whole invariant (slots distinct, top process loaded in cr3 and esp0, others resumable, video pages mapped), and only a refused call returns -1, changing nothing |
| ProcessSafety.ExecuteKeeps | syscall.c:153-206 | a refused execute changes nothing; otherwise the new process is on top of the scheduled stack and is the one the processor runs |
| ProcessSafety.HaltKeeps | syscall.c:33-90 | halt keeps the invariant and never falls out, whatever stays on the stack |
| ProcessSafety.HaltOfARoot | syscall.c:56-59 | halting a root always finds a free slot and leaves exactly a fresh shell in its place |
| ProcessSafety.NextTerminalIsFirst | scheduling.c:106-111 | the search stops at the first active terminal in cyclic order |
| ProcessSafety.DispatchResumes | scheduling.c:106-134 | with every active terminal resumable, none of the scheduler's early exits is taken after current_terminal has moved |
| ProcessSafety.TickKeeps | scheduling.c:66-152 | a tick keeps the invariant and always resumes the saved scheduling registers of the next process |
| ProcessSafety.LaunchKeeps | scheduling.c:98-134 | a launch enters a shell exactly when a slot is free, and otherwise leaves all stacks alone and resumes an active terminal; the invariant holds either way |
| ProcessSafety.SwitchKeeps | kb.c:280-302 | a switch keeps the invariant and never fails |
| ProcessSafety.RemapKeepsBase | paging.c:192-211 | after remapping, each live process writes to the screen if its recorded terminal is visible and to its backing page if not, and free slots still map to the screen |
| ProcessSafety.OpenKeepsFiles | syscall.c:259-324 | open returns the lowest free descriptor in 2..7, or fails exactly on an unknown name or a full table and changes nothing; 0 and 1 stay in use |
| ProcessSafety.CloseUndoesOpen | syscall.c:332-347 | close succeeds exactly on descriptors 2..7 in use, refuses otherwise without effect, and undoes an open |
| ProcessEffects.ExecuteEffect | syscall.c:153-196 | a successful execute parks the registers in the caller, puts the new process above it and sets the processor to it; no other field of the state changes |
| ProcessEffects.HaltEffect | syscall.c:49-84 | halt removes the process, gives its slot's output back to the screen, and sets the processor to the parent or to a fresh shell; no other field changes |
| ProcessEffects.TickEffect | scheduling.c:93-148 | a tick stores the registers in the running process and sets the processor to the first active terminal after its own; no other field changes |
| ProcessEffects.SwitchEffect | kb.c:280-302 | a switch changes the visible terminal and the output pages, which are then those of the recorded terminals; the first one to a terminal also stores the registers, marks it, and starts a shell or resumes the next active terminal |
| ProcessEffects.CallEffect | syscall.c:216-347 | open, close and read change the running process's descriptors only |
| ProcessEffects.ExecuteStartsFresh | syscall.c:139-206 | execute enters a program if and only if the command is known and one of six slots is free; it takes the lowest, stays on its terminal, and the process starts with descriptors 0 and 1 open, 2 to 7 unused, and nothing parked or saved |
| ProcessEffects.HaltRestartsFresh | syscall.c:56-59 | the shell that replaces a halted root starts in the same way |
| ProcessEffects.LaunchStartsFresh | scheduling.c:98-104 | and so does the shell of a terminal that is opened |
| ProcessEffects.FreshDescriptors | pcb.c:129-152 | a new process gets descriptor 2 from its first open, and before that read and close refuse every descriptor from 2 on |
| ProcessEffects.DescriptorsInNumbers | syscall.c:259-347 | the table and the result of open and close for every descriptor table and number |
| ProcessEffects.ProcessorInNumbers | syscall.c:159-180 | in every state the page directory, the kernel stack pointer and the output page of the running process, as numbers |
| ProcessRuns.BootIsSafe | kernel.c:204-210 | entering the first shell on the empty tables establishes the invariant |
| ProcessRuns.RunIsBracketed | syscall.c:153-196 | in every run from boot, a process with a parent was entered by an execute on its own terminal, and all that lies below it is the stack of that moment with the caller's registers parked |
| ProcessRuns.HaltReturnsToExecute | syscall.c:60-87 | whatever ran in between on any terminal, halt makes the matching execute return the status, with exactly the registers that execute parked and the caller's stack unchanged |
| ProcessRuns.DescheduledIsFrozen | scheduling.c:93-94 | the stack of a terminal that is not scheduled is the one it had when it was last left, with the registers of that moment in the scheduling pair |
| ProcessRuns.TickResumesWhereLeft | scheduling.c:123-148 | a tick that reaches another terminal resumes the registers it had when it was left |
| ProcessFairness.ActiveForever | syscall.c:52-61 | an active terminal stays active in every run |
| ProcessFairness.TickGoesToNext | scheduling.c:106-111 | a tick schedules the first active terminal after the current one in cyclic order, and the current one if it is alone |
| ProcessFairness.ThreeTicksServe | scheduling.c:106-111 | in every run without a launch, any three ticks serve every active terminal, whatever else happens in between |
| ProcessFairness.SevenTicksServe | scheduling.c:98-111 | in every run at all, launches and failing launches included, any seven ticks serve every terminal that was active at the start |
| ProcessFairness.FirstSwitchServesIffSlotFree | scheduling.c:98-104 | the first switch to a terminal gives it a shell for all of the future if and only if a slot is free at that moment |
| ProcessFairness.LostForever | kb.c:297-300 | a terminal marked as started without a process never gets one |
| ProcessFairness.LostTerminalIsReachable | scheduling.c:99-104 | five nested programs and Alt+F2 after boot lose the second terminal |
| ProcessFairness.AlignmentCondition | pcb.c:170 | an event keeps every process recorded for its own terminal if and only if any process it creates outside a launch is created while its terminal is visible |
| ProcessFairness.BootedIsAligned | kernel.c:204-210 | after boot every process is recorded for its own terminal |
| ProcessFairness.MisalignedIsReachable | pcb.c:170 | Alt+F2, Alt+F1 and an execute after boot give a process on terminal 2 that is recorded for terminal 1 |
| ProcessTable.Kernel.constructor | paging.c:23-54 | the tables before the first shell |
| ProcessTable.Kernel.FindNewPcb | pcb.c:82-91 | the first empty pointer is the lowest slot number that no stack uses, or -1 |
| ProcessTable.Kernel.FindPcb | pcb.c:101-109 | the control block of a slot number, or null |
| ProcessTable.Kernel.NewPcb | pcb.c:119-173 | a new control block: parent, standard descriptors with their own operation table entries, cleared registers, slot number, the visible terminal |
| ProcessTable.Kernel.Execute | syscall.c:97-206 | slot table, pcb_num, parent pointers, registers and paging after execute are those of a push on the scheduled stack |
| ProcessTable.Kernel.Halt | syscall.c:33-90 | after halt they are those of a pop, or of a pop and a fresh shell; the parent goes on with its parked registers and the child's status |
| ProcessTable.Kernel.CloseUnused | syscall.c:40-48 | the closing loop of halt changes nothing |
| ProcessTable.Kernel.Preempt | scheduling.c:93-94 | only the scheduling registers of the running process change |
| ProcessTable.Kernel.Advance | scheduling.c:106-111 | the search loop ends at the specified terminal with its slot number |
| ProcessTable.Kernel.Dispatch | scheduling.c:106-152 | search, early exits, esp0, page directory and resumed registers as in the model |
| ProcessTable.Kernel.ScheduleNextProcess | scheduling.c:66-152 | a tick or a launch, including the launch whose execute fails |
| ProcessTable.Kernel.RemapPage | paging.c:192-204 | the loop over the slots gives every process the page its recorded terminal calls for and leaves the other mappings alone |
| ProcessTable.Kernel.RestorePage | paging.c:220-222 | the freed slot maps to the screen again |
| ProcessTable.Kernel.Switch | kb.c:280-302 | the process side of a terminal switch, with the first launch |
| ProcessTable.Kernel.Open | syscall.c:259-324 | descriptor and operation table after open are those of the descriptor model, for the running process only |
| ProcessTable.Kernel.Close | syscall.c:332-347 | the same for close, with the result of the type's own close function |
| ProcessTable.Kernel.OperationsMatch | syscall.c:279-299 | a descriptor in use, of any live process in any reachable state, points at its own entry of the operation tables, which holds the read, write, open and close operations of its type |
| ProcessTable.Kernel.WriteTarget | syscall.c:238-250 | write refuses descriptors not in use and otherwise reaches the write operation of the type |
| ProcessTable.Kernel.OutputPage | paging.c:85-109 | the page that the running process reaches through its video address, by the two-level walk |
| ProcessTable.Kernel.WalkIsStack | syscall.c:423-426 | following parent pointers from pcb_num ends and meets exactly the processes of that terminal's stack, in order |
| ProcessTable.Kernel.WalksPartitionSlots | pcb.c:82-109 | a slot is in use if and only if one of the three walks along parent pointers meets it, and only one does, at one place, with pid equal to the slot number |
| Paging.PageTables.SetPaging | paging.c:23-142 | the loops build the same tables for every task, with all the bits that the code sets |
| Paging.EntriesInNumbers | paging.c:28-138 | every entry of the directory, the page table and the video page table of a task, bit by bit |
| Paging.PageTables.SetPage0 | paging.c:201-203 | one entry of one task is redirected, nothing else |
| Paging.PageTables.WalkIsClosedForm | paging.c:81-142 | for every task and 32-bit address the walk equals a closed form: video identity page, kernel page, program page, four user video pages, nothing else |
| Paging.TranslationInNumbers | paging.c:85-138 | what every 32-bit address of a task means, as ranges of numbers |
| Paging.TasksShareOnlyKernelAndVideo | paging.c:127-131 | two tasks reach the same physical byte only in the kernel page or the video pages |
| Paging.UserReach | paging.c:106-138 | user code reaches its own program frame and the video pages only |
| Paging.ProgramIsOneToOne | paging.c:127-131 | every byte of a program frame has exactly one user address |
| Paging.StackBlocks | syscall.c:170 | kernel stack and control block of a slot fill one 8 KB block, inside the kernel page, apart from those of other slots |
| Console.ConsoleIsWindow | kb.c:562-629 | for every text the page is the last 25 rows of an unbounded sheet of paper, the cursor is at the paper's position, and scroll_index is the number of rows gone by, mod 256 |
| Console.HistoryIsKept | kb.c:696-716 | rows that have left the screen are never changed |
| Console.AheadStaysBlank | kb.c:708-714 | everything from the cursor on is NUL if it was at the start |
| Console.TextInOnePiece | kb.c:618-625 | printable text stands on the paper in one piece before the cursor, across wraps and scrolls |
| Console.ScreenSpellsText | kb.c:618-625 | the cells before the cursor on the screen spell the text, as far back as the screen goes |
| Console.EmitKeepsBuffers | kb.c:562-629 | output leaves the edit buffers and flags alone |
| Console.PrintableLaw | kb.c:618-625 | a printable character fills its cell in white, changes no other byte of the page, and moves the cursor one cell on; behind the last cell the page moves up by one row |
| Console.NewlineLaw | kb.c:594-603 | a newline goes to the start of the next row, or moves the page up by one row |
| Console.BackspaceLaw | kb.c:574-592 | a backspace erases the cell before the cursor, across rows, or does nothing at the first cell or when the buffer flag forbids it |
| Console.TabLaw | kb.c:605-617 | a tab is four spaces |
| Console.TabTakesFourCells | kb.c:605-617 | on the sheet of paper it fills four cells, across wraps and scrolls |
| LineEditor.EditorIsFold | kb.c:895-984 | for every sequence of keys, the edit buffer and its stored copy hold the lines of a plain fold over the keys, at most 128 characters, and all cells behind them are NUL |
| LineEditor.ScreenSpellsLine | kb.c:895-984 | typing without tabs, the cells just before the cursor always spell the line, across wraps, scrolls, erasing and clearing |
| LineEditor.TypedLineIsOnScreen | kb.c:895-984 | the same on the video page: each buffer cell is the glyph at its place before the cursor |
| LineEditor.TabIsShownIff | kb.c:940-962 | after a tab the screen still spells the line if and only if the line was full, or the line and as many cells before it as spaces were added are on the screen and are all spaces |
| LineEditor.TabIsNotShown | kb.c:940-962 | so a tab breaks the agreement for every line that has room and a character other than a space |
| LineEditor.EnterFlagLaw | kb.c:924 | Enter sets the flag that ends a read, no other key changes it |
| LineEditor.EnterEndsWait | kb.c:924 | after any keys the flag is set if and only if it was or Enter was among them |
| LineEditor.BufferFlagLaw | kb.c:898-976 | which keys forbid and which allow erasing by processes |
| LineEditor.KeyIsShown | kb.c:898-976 | what each key does to the picture, in terms of output |
| LineEditor.ClearIsBlank | kb.c:929-937 | Ctrl-L leaves white blanks, the cursor at the start, and the scroll count |
| LineEditor.TypedLineIsStored | kb.c:919-975 | a reader gets the text that was typed before Enter, cut at 128 characters |
| LineEditor.ErasingUndoes | kb.c:898-937 | a backspace takes back the character before it, Ctrl-L the whole line |
| LineEditor.LineIsLimited | kb.c:941-983 | a tab adds four spaces or what fits; a full line takes nothing |
| LineEditor.BuffersInCells | kb.c:992-1018 | all 4096 cells of both buffers: the line and NUL behind it |
| Video.Terminal.constructor | kb.c:456-486 | the fields of a fresh terminal |
| Video.Terminal.CopyBuffer | kb.c:1010-1018 | the 128 cells are copied |
| Video.Terminal.CleanBuffer | kb.c:992-1002 | the 128 cells are cleared with size and flag |
| Video.Terminal.Close | kb.c:639-651 | the stored line and the edit buffer are cleared |
| Video.Screen.PutC | kb.c:659-675 | one cell of one page and its colour |
| Video.Screen.ScrollUp | kb.c:696-716 | the in-place, row by row scroll equals moving all rows at once |
| Video.Screen.SetCursor | kb.c:724-734 | the two cursor registers together hold the cell number |
| Video.Screen.UpdateCursor | kb.c:743-767 | the next cell, on a new row or with a scroll |
| Video.Screen.RevertCursor | kb.c:776-797 | the cell before |
| Video.Screen.Write | kb.c:562-629 | the page and fields after a write are those of emitting the text; other pages are untouched; the display's cursor stands where the last character that moves it has left it, or where it was if the write is not shown |
| Video.Screen.CleanScreen | kb.c:873-887 | the whole page is blank and both cursors are at its start |
| Video.Screen.FillBuffer | kb.c:895-984 | one key changes the page, the fields and the buffers as the key's meaning says, and the display's cursor stays with the terminal if it was there |
| Video.Screen.SwitchPages | kb.c:287-291 | the screen is saved and replaced by the other terminal's page; the remaining pages are untouched |
| MachineModel.OutputFollowsRecord | paging.c:200-203 | the running process writes to the page of its recorded terminal, on or off the screen |
| MachineModel.OutputIsOwnIffAligned | pcb.c:170 | it writes to its own terminal's page if and only if it is recorded for it |
| MachineModel.StepIsLocal | kb.c:280-302 | a step changes the logical screen of a terminal only by that terminal's own output, key or halt; a switch changes none; an output must come from a process recorded for its own terminal |
| MachineModel.OutputIsLocalIffOwn | pcb.c:170 | every text of the running process reaches its own terminal only, if and only if the process is recorded for that terminal |
| MachineModel.TerminalsAreIndependent | kb.c:280-349 | over every run in which each output comes from a process recorded for its own terminal, each terminal's screen, cursor and buffers are those of its own inputs applied in order |
| MachineModel.AttendedOutputs | pcb.c:170 | the outputs of a run are so if every process is created while its terminal is visible |
| MachineModel.EveryTerminalHasItsSheet | kb.c:562-797 | over those runs each terminal, visible or not, shows the last 25 rows of one sheet of paper on which its outputs, keys and halts have been written in order |
| MachineModel.ApplyKeepsHistory | kb.c:696-716 | none of these inputs, clearing the screen included, changes a row that has left the screen |
| MachineModel.CursorKeptIff | kb.c:565-624 | every text leaves the display's cursor with the visible terminal if and only if the running terminal was noted as visible exactly when it is |
| MachineModel.CutWriteStraysCursor | kb.c:565-624 | from boot, a write that Alt+F2 and a tick cut takes the display's cursor away with its next one or two characters |
| MachineModel.HaltClearsLine | kb.c:639-651 | after a halt its terminal has an empty line, nothing stored and the buffer flag set; its picture and the other terminals are as before |
| Machine.System.WriteTerminal | kb.c:562-629 | the write of the running process through its video mapping is the output step; the display's cursor ends at the cell that the text and the noted terminal give |
| Machine.System.WriteKeepsCursor | kb.c:565-624 | the display's cursor is with the visible terminal after a write if and only if the model says so for that text and noted terminal |
| Machine.System.KeyPressed | kb.c:895-984 | a key is the typing step on the visible terminal, wherever the display's cursor is, and the cursor stays with the terminal if it was there |
| Machine.System.SwitchTerminal | kb.c:280-302 | remapping, the two page copies, the cursor and the launch together are the switch step, in every state; after a switch the display's cursor belongs to the new terminal |
| Machine.System.Halt | syscall.c:33-90 | halt with close_terminal is the halt step, and never returns to its caller |
| Machine.System.TimerInterrupt | scheduling.c:48-55 | a tick is the tick step, and always resumes a process |
| Machine.System.Open | syscall.c:259-324 | open is the open step and leaves the terminals alone |
| Machine.System.Close | syscall.c:332-347 | close is the close step and leaves the terminals alone |
| Machine.System.Read | syscall.c:216-228 | read is the read step with the reply of the image, stores exactly the reply's bytes, and leaves the terminals alone |
| Machine.System.constructor | kernel.c:167-195 | the empty tables and three terminals that nothing has happened to |
| Machine.System.Boot | kernel.c:204-210 | from there to a state that satisfies the invariant, with a blank screen, both cursors at its start, and the other terminals as they were |
| FileSystem.ReadData | file_system.c:101-160 | the incremental loop copies exactly the bytes of a closed form: byte j comes from list entry offset/4096 + (offset%4096+j)/4097, at index (offset%4096+j)%4097; errors and the end of the file included |
| FileSystem.ReadAddressIsRight | file_system.c:137-155 | that address is the byte's own if and only if the byte lies in the first block, or is the first of the second and that block follows on disk |
| FileSystem.SliceIffInPlace | file_system.c:142-156 | a request returns the slice of the file for all contents of the data blocks if and only if the clamped request stays in its first block, up to that one byte |
| FileSystem.InPlaceAnswersSlice | file_system.c:119-158 | a request in place returns exactly the file's bytes, clamped at the end of the file |
| FileSystem.ClampIsRightIffNoWrap | file_system.c:119-122 | the length is cut at the end of the file if and only if the 32-bit sum does not wrap |
| FileSystem.LoadFile | file_system.c:301-331 | for any length and any block list the destination holds the file's bytes, and nothing behind them changes |
| Directory.Loader | file_system.c:293-332 | the same for the file that the name leads to |
| FileSystem.BlockRequest | file_system.c:312-328 | each request of the loader stays in one block and is answered with that piece of the file |
| FileSystem.WordOfNumber | file_system.c:103-130 | the little-endian bytes of a number are read as the number |
| FileSystem.WordOfBytes | file_system.c:103-130 | a word of the image is a number if and only if its four bytes are the number's |
| FileSystem.FileInNumbers | file_system.c:112-138 | the address of every byte of a file, from the words of the image |
| FileSystem.AnswerInNumbers | file_system.c:125-156 | the address that every byte of an answer comes from, with the stride of 4097 |
| FileSystem.FailsIff | file_system.c:106-135 | a request fails if and only if the inode does not exist, or something is left to read and the first listed block does not exist; at the end of the file it delivers nothing |
| FileReads.ReadFile | file_system.c:182-197 | bytes, count and position of a read through a descriptor, for negative counts as well; the other descriptors do not change |
| FileReads.PointerGivesInode | file_system.c:187 | the inode number that read_file computes from the pointer that open stored, in 32-bit arithmetic |
| FileReads.InodeRecoveredIff | file_system.c:187 | that is the number that was opened if and only if its block has a 32-bit address, or it is 0xFFFFFFFF |
| FileReads.NeverFails | file_system.c:101-135 | reads from a file within its length never fail and deliver as many bytes as asked for or left |
| FileReads.PositionIsSum | file_system.c:190-193 | after any sequence of reads the position is the sum of the requests, or the file's length |
| FileReads.ReadsDeliverPrefix | file_system.c:182-197 | any sequence of reads that do not cross blocks delivers the file from its start, in order, without gaps |
| FileReads.ChunksDeliverFile | file_system.c:182-197 | chunks of a size that divides 4096 deliver the whole file, and then nothing |
| ProcessReads.Read | syscall.c:216-228 | the running process's descriptor moves as the operation of its type says, the buffer gets exactly the reply's bytes, and nothing else changes; refused for descriptors not in use |
| ProcessReads.ReadCases | syscall.c:216-228 | read is refused for descriptors not in use, moves the descriptor of a file or a directory, and returns a constant for the devices |
| ProcessReads.DirectoryReplyInNumbers | file_system.c:239-261 | what a read of a directory returns, moves and stores |
| ProcessReads.FileReplyInNumbers | syscall.c:216-228 | what a read of a file, of the clock device and of standard output returns, moves and stores |
| ProcessOpens.OpenByName | syscall.c:259-324 | descriptor table and result of open for what the directory says about the name |
| ProcessOpens.FoundInNumbers | syscall.c:279-315 | type 0 is the clock device, 1 a directory, 2 a file, and only a file has an inode number |
| ReadRuns.ReadIsAnswered | syscall.c:216-228 | a call of Read is a read event that the image answers |
| ReadRuns.StepKeepsFile | syscall.c:216-347 | no event but the process's own halt, close or read touches its open descriptor |
| ReadRuns.RunFollows | file_system.c:182-197 | over every run a process that keeps a file open has got what its requests deliver, and its position is the number of bytes it has got |
| ReadRuns.OpenThenRead | syscall.c:216-324 | a process opens a file; over every run, whatever other terminals and descriptors do, its reads add up to the requested sizes or the file's length, and deliver the file's prefix if none crosses a block |
| Directory.ReadDentryByName | file_system.c:25-56 | the first entry whose 32-byte name equals the query is described, or -1 and no change if there is none |
| Directory.ReadDentryByIndex | file_system.c:65-92 | an entry in range is described with its whole name field; otherwise -1 and no change |
| Directory.DescribedInNumbers | file_system.c:44-51 | what a lookup stores: the type bytes of the entry, and its inode bytes if the type is 2, else zeros |
| Directory.LookupFindsEntry | file_system.c:34-54 | asking for the name of entry i finds entry i if and only if no earlier entry has that name |
| Directory.AllFoundIffDistinct | file_system.c:25-92 | lookup by name and by index agree on all entries if and only if the names differ |
| Directory.LongNamesAreCut | file_system.c:38 | a lookup depends on the first 32 characters only |
| Directory.NamedInNumbers | file_system.c:38 | a query names an entry if and only if the 32 bytes of its name field and the first 32 characters of the query are the same text |
| Directory.DirectoryRead | file_system.c:239-261 | one name per call with its length, the position moves by one, and at the end nothing changes |
| Directory.ReadsEnumerate | file_system.c:239-261 | repeated reads deliver every name once, in order, and then nothing forever |
| Directory.ZeroMeansEnd | file_system.c:248-257 | the first 0 means the end if and only if no name is empty |
| Strings.StrNCmp | lib.c:493-511 | 0 if and only if the texts cut at n are equal; otherwise the signed difference at the first place where they part |
| Strings.SignedIsTwosComplement | lib.c:507 | characters are compared as signed bytes |
| Strings.StrLen | lib.c:284-292 | the length of the text before the first NUL |
| Strings.StrCpy | lib.c:521-532 | the text and its NUL are copied, the rest stays |
| Strings.StrRev | lib.c:259-275 | the string is reversed in place, everything around it stays |
| NumberFormat.Itoa | lib.c:217-250 | leaves exactly the numeral and its NUL in the buffer, for every 32-bit value and radix 2..36 |
| NumberFormat.NumeralIff | lib.c:217-250 | the numeral is the one string of valid digits without a leading zero that denotes the value |
| NumberFormat.ValueOfNumeral | lib.c:233-243 | reading the numeral back gives the value |
| NumberFormat.DigitsAreLookup | lib.c:220 | the digits are those of the lookup string |
| NumberFormat.FirstDigitWeighs | lib.c:238-249 | what a string of digits denotes, from its front |
| NumberFormat.NumeralFits | lib.c:92-124 | 32 digits suffice for any radix, 10 for decimal, 8 for hexadecimal |
| NumberFormat.PrintHex | lib.c:96-106 | exactly eight hexadecimal digits that denote the value |
| NumberFormat.PrintSigned | lib.c:122-134 | sign and magnitude denote the value, the smallest one included |
| MemoryCopy.MemCpy | lib.c:404-444 | head, word and tail phases together copy the bytes for every alignment and length, on separate regions and on regions that overlap forwards |
| MemoryCopy.MemMove | lib.c:456-477 | the destination gets the source as it was, for every overlap |
| MemoryCopy.SplicedAt | lib.c:404-477 | the result of a copy, byte by byte |

## Left out

- Interleavings finer than a character: an interrupt in the middle of one character's output, of a scroll or of a tab is not modelled.
- The stores of user programs through their video mapping (vidmap, `syscall.c:380`): only the kernel's own output routines write to the pages.
- ProcessTable.Kernel.Execute: command parsing, the argument buffer and the first steps of the program are not modelled; whether a command names a program with the ELF magic is the parameter `known`, and Directory.Loader says what is loaded.
- ProcessTable.Kernel.NewPcb: the fields retval and args, which only getargs reads.
- ProcessTable.Kernel.Open: takes what the directory says about the name as a parameter, which ProcessOpens.OpenByName fills in; entries of a type other than 0, 1 and 2 are not covered, because for them the code calls through whatever operation table pointer the descriptor held before.
- The shell image is taken to be loadable when halt or a launch needs it; if it were not, halt would follow a null parent pointer.
- read_terminal, whose busy wait copies a buffer that keys change meanwhile, and with it reads of descriptor 0; scan codes, modifier and arrow keys, except Alt+F1..F3 and the characters they end up as.
- ProcessFairness.ThreeTicksServe: only runs without a launch, because a launch gives the processor to the new terminal; SevenTicksServe covers all runs.
- MachineModel.TerminalsAreIndependent: outputs must come from processes recorded for their own terminal; OutputIsLocalIffOwn shows that this is exactly what an output needs.
- Machine.System.WriteTerminal: the display's cursor does not always stay with the visible terminal; CursorKeptIff gives the exact condition.
- FileSystem.ReadData: the block image is a value that nothing writes; later entries of a block list must name data blocks, since the code checks the first one only; and a request whose 32-bit sum wraps is not covered, because the code then copies nearly 4 GB over all memory (ClampIsRightIffNoWrap).
- FileReads.ReadFile: the same requests are not covered. A negative count is, as long as its sum with the position does not wrap.
- ReadRuns.OpenThenRead: the reads of the run must ask for less than 4 GB minus the file's length, and the image must fit 32-bit memory.
- ProcessOpens.OpenByName: the same entries are not covered.
- Directory.ReadDentryByName: queries of 64 characters and more, which do not fit a dentry; and images with more than 63 entries, which do not fit the boot block.
- Directory.DirectoryRead: buffers of less than 33 bytes, which the code overruns.
- Directory.Loader: names that are not there, for which the code uses an uninitialised dentry.
- Video.Terminal.constructor: the key and map flags, the video address and the terminal's own number; run_shell is part of the process table.
- Video.Screen.Write and the keyboard's copies of the console routines: kb.c has each routine twice, for the scheduled terminal through its mapping and for the visible one; they differ in the page and terminal they name, which are parameters here.
- CR0, CR4, the flush of the TLB, and the moves between registers themselves: register values are opaque and cr3 is an index.
- Boot code, descriptor tables, interrupt controller, timer and clock devices, exception printers, and calls that always fail.
- printf's scan of its format string; its number conversions are modelled.
