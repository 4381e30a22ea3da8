// The read system call on the process table.
module ProcessReads {
  import opened Types
  import opened ProcessModel
  import opened ProcessSafety
  import opened ProcessTable
  import opened Paging
  import opened FileSystem
  import opened Strings
  import FileReads
  import D = Directory

  // What a read of a directory at a position does.
  ghost function DirectoryReply(img: seq<Byte>, pos: nat): Reply
    requires D.Listing(img)
  {
    Reply(|D.NameRead(img, pos)|, D.After(img, pos) - pos, if pos < D.Count(img) then D.EntryName(img, pos) + [NUL] else [])
  }

  // The image can answer the request. A file must be readable, and the buffer
  // must have room for the answer; a directory wants 33 bytes at all times.
  ghost predicate Answerable(img: seq<Byte>, f: File, length: int, room: int) {
    && f.InUse?
    && (f.kind == Regular ==>
          var n := FileReads.Recovered(f.inode);
          Readable(img, n, f.filePos, length) && |FileReads.FileReply(img, n, f.filePos, length).bytes| <= room)
    && (f.kind == Directory ==> D.Listing(img) && D.NAME < room)
  }

  // What the read operation of an open file does. Standard input is not part
  // of this model.
  ghost function ReplyOf(img: seq<Byte>, f: File, length: int, room: int): Reply
    requires Answerable(img, f, length, room)
  {
    if f.kind == Regular then FileReads.FileReply(img, FileReads.Recovered(f.inode), f.filePos, length)
    else if f.kind == Directory then DirectoryReply(img, f.filePos)
    else if f.kind == Rtc then Reply(0, 0, [])
    else Reply(-1, 0, [])
  }

  ghost predicate CanRead(s: System, img: seq<Byte>, fd: int, length: int, room: int) {
    && s.Shape() && s.Active(s.current) && |s.Top(s.current).files| == PCB_FILE_NUMBER
    && fd != 0
    && (Open(s.Top(s.current).files, fd) ==> Answerable(img, s.Top(s.current).files[fd], length, room))
  }

  // What read does for the running process.
  ghost function CallReply(s: System, img: seq<Byte>, fd: int, length: int, room: int): Reply
    requires CanRead(s, img, fd, length, room)
  {
    var files := s.Top(s.current).files;
    if Open(files, fd) then ReplyOf(img, files[fd], length, room) else Reply(-1, 0, [])
  }

  ghost function ReadStep(s: System, fd: int, reply: Reply): (System, int)
    requires s.Shape() && s.Active(s.current) && |s.Top(s.current).files| == PCB_FILE_NUMBER
  {
    var (files, r) := ReadThrough(s.Top(s.current).files, fd, reply);
    (WithFiles(s, files), r)
  }

  function Moved(f: File, advance: nat): File
    requires f.InUse?
  {
    f.(filePos := f.filePos + advance)
  }

  // The read operation of a file or a directory.
  method ReadThere(img: seq<Byte>, bbStart: int, op: ReadOp, file: array<FileDesc>, fd: int, ghost f: File, buf: array<Byte>, nbytes: int, base: nat)
    returns (r: int)
    requires 0 <= fd < file.Length && Answerable(img, f, nbytes % U32, buf.Length)
    requires (op == ReadFile && f.kind == Regular) || (op == DirectoryRead && f.kind == Directory)
    requires file[fd].filePos == f.filePos && (f.kind == Regular ==> file[fd].inodePtr == InodePointer(bbStart, f.inode))
    modifies file, buf
    ensures var reply := ReplyOf(img, f, nbytes % U32, buf.Length);
      && r == reply.result && buf[..] == reply.bytes + old(buf[..])[|reply.bytes|..]
      && file[..] == old(file[..])[fd := old(file[fd]).(filePos := f.filePos + reply.advance)]
  {
    hide D.Listing, D.EntryName, D.NameRead, D.After, Readable, Answered, FileReads.InodeOf, FileReads.Recovered, InodePointer;
    if op == ReadFile {
      FileReads.PointerGivesInode(bbStart, f.inode);
      r := FileReads.ReadFile(img, bbStart, file, fd, buf, nbytes);
    } else {
      r := D.DirectoryRead(img, file, fd, buf, base);
    }
  }

  // The same for the descriptors of one slot.
  method ReadListed(k: Kernel, img: seq<Byte>, slot: int, fd: int, ghost files: seq<File>, buf: array<Byte>, nbytes: int, base: nat)
    returns (r: int)
    requires k.Layout() && buf !in k.blocks && 0 <= slot < MAX_PCB_NUM && k.FilesMatch(slot, files)
    requires Open(files, fd) && files[fd].kind in {Directory, Regular} && Answerable(img, files[fd], nbytes % U32, buf.Length)
    modifies k.area[slot].file, buf
    ensures var reply := ReplyOf(img, files[fd], nbytes % U32, buf.Length);
      && k.FilesMatch(slot, files[fd := Moved(files[fd], reply.advance)])
      && r == reply.result && buf[..] == reply.bytes + old(buf[..])[|reply.bytes|..]
  {
    ghost var f, before := files[fd], k.area[slot].file[..];
    hide Answerable, ReplyOf;
    assert k.FileMatches(before[fd], f, slot, fd) && AllListed(k, slot, files, before);
    r := ReadThere(img, k.bbStart, k.fops[slot][fd].read, k.area[slot].file, fd, f, buf, nbytes, base);
    OneReplaced(k, slot, files, before, fd, Moved(f, ReplyOf(img, f, nbytes % U32, buf.Length).advance));
  }

  // The descriptors of a slot stand for the given files.
  ghost predicate AllListed(k: Kernel, slot: int, files: seq<File>, descriptors: seq<FileDesc>)
    requires k.Layout() && 0 <= slot < MAX_PCB_NUM
    reads k.fops[slot]
  {
    && |files| == |descriptors| == PCB_FILE_NUMBER
    && forall j :: 0 <= j < PCB_FILE_NUMBER ==> k.FileMatches(descriptors[j], files[j], slot, j)
  }

  lemma OneReplaced(k: Kernel, slot: int, files: seq<File>, before: seq<FileDesc>, fd: int, f: File)
    requires k.Layout() && 0 <= slot < MAX_PCB_NUM && 0 <= fd < PCB_FILE_NUMBER && AllListed(k, slot, files, before)
    requires k.area[slot].file[..] == before[fd := k.area[slot].file[fd]]
    requires k.FileMatches(k.area[slot].file[fd], f, slot, fd)
    ensures |files| == PCB_FILE_NUMBER && k.FilesMatch(slot, files[fd := f])
  {
    hide Kernel.FileMatches;
    forall j | 0 <= j < PCB_FILE_NUMBER ensures k.FileMatches(k.area[slot].file[j], files[fd := f][j], slot, j) {
      assert k.area[slot].file[..][j] == k.area[slot].file[j];
    }
  }

  // The same for one frame of a stack.
  method ReadFrame(k: Kernel, img: seq<Byte>, num: int, fd: int, ghost f: Frame, ghost parent: Pcb?, buf: array<Byte>, nbytes: int, base: nat)
    returns (r: int)
    requires k.Layout() && buf !in k.blocks && 1 <= num <= MAX_PCB_NUM && num == f.pid && k.FrameMatches(f, parent)
    requires |f.files| == PCB_FILE_NUMBER && Open(f.files, fd)
    requires f.files[fd].kind in {Directory, Regular} && Answerable(img, f.files[fd], nbytes % U32, buf.Length)
    modifies k.area[num - 1].file, buf
    ensures var reply := ReplyOf(img, f.files[fd], nbytes % U32, buf.Length);
      && k.FrameMatches(f.(files := f.files[fd := Moved(f.files[fd], reply.advance)]), parent)
      && r == reply.result && buf[..] == reply.bytes + old(buf[..])[|reply.bytes|..]
  {
    hide Answerable, ReplyOf, Kernel.FilesMatch;
    r := ReadListed(k, img, num - 1, fd, f.files, buf, nbytes, base);
  }

  // And for all stacks, when the running process reads.
  method ReadOpen(k: Kernel, img: seq<Byte>, num: int, fd: int, ghost files: seq<File>, buf: array<Byte>, nbytes: int, base: nat, ghost s: System)
    returns (r: int)
    requires k.Layout() && buf !in k.blocks && s.Shape() && s.Distinct() && k.StacksMatch(s) && s.Active(s.current)
    requires num == s.Top(s.current).pid && 1 <= num <= MAX_PCB_NUM && files == s.Top(s.current).files
    requires |files| == PCB_FILE_NUMBER && Open(files, fd)
    requires files[fd].kind in {Directory, Regular} && Answerable(img, files[fd], nbytes % U32, buf.Length)
    modifies k.area[num - 1].file, buf
    ensures var reply := ReplyOf(img, files[fd], nbytes % U32, buf.Length);
      && k.FiledMatch(s, num, fd, Moved(files[fd], reply.advance))
      && r == reply.result && buf[..] == reply.bytes + old(buf[..])[|reply.bytes|..]
  {
    ghost var f' := Moved(files[fd], ReplyOf(img, files[fd], nbytes % U32, buf.Length).advance);
    ghost var c, d := s.current, |s.stacks[s.current]| - 1;
    k.FrameAt(s, c, d);
    assert s.stacks[c][d] == s.Top(c);
    hide Answerable, ReplyOf, Moved, Kernel.FrameMatches, OthersMatch;
    SetAside(k, s, num);
    r := ReadFrame(k, img, num, fd, s.Top(c), k.BelowIn(s, c, d), buf, nbytes, base);
    Rejoined(k, s, num, fd, f');
  }

  // The frames of all slots but one. It does not look at that slot's descriptors.
  ghost predicate OthersMatch(k: Kernel, s: System, num: int)
    requires k.Layout() && s.Distinct() && 1 <= num <= MAX_PCB_NUM
    reads k.blocks - {k.area[num - 1].file}
  {
    forall t, i :: s.At(t, i) && s.stacks[t][i].pid != num ==> k.FrameMatches(s.stacks[t][i], k.BelowIn(s, t, i))
  }

  lemma SetAside(k: Kernel, s: System, num: int)
    requires k.Layout() && s.Distinct() && k.StacksMatch(s) && 1 <= num <= MAX_PCB_NUM
    ensures OthersMatch(k, s, num)
  {
    hide Kernel.FrameMatches;
  }

  lemma Rejoined(k: Kernel, s: System, num: int, fd: int, f: File)
    requires k.Layout() && s.Shape() && s.Distinct() && s.Active(s.current) && 1 <= num <= MAX_PCB_NUM && num == s.Top(s.current).pid
    requires OthersMatch(k, s, num) && 0 <= fd < |s.Top(s.current).files|
    requires s.At(s.current, |s.stacks[s.current]| - 1)
    requires k.FrameMatches(s.Top(s.current).(files := s.Top(s.current).files[fd := f]), k.BelowIn(s, s.current, |s.stacks[s.current]| - 1))
    ensures k.FiledMatch(s, num, fd, f)
  {
    hide Kernel.FrameMatches, Kernel.Layout, System.Distinct, OthersMatch, Kernel.BelowIn, Kernel.FiledFrame, System.Top, Kernel.FiledMatch;
    forall t, i | s.At(t, i) ensures FiledAt(k, s, num, fd, f, t, i) {
      RejoinedAt(k, s, num, fd, f, t, i);
    }
    AllFiled(k, s, num, fd, f);
  }

  ghost predicate FiledAt(k: Kernel, s: System, num: int, fd: int, f: File, t: int, i: int)
    requires k.Layout() && s.Distinct() && 0 <= fd && s.At(t, i)
    reads k.blocks
  {
    k.FrameMatches(k.FiledFrame(s.stacks[t][i], num, fd, f), k.BelowIn(s, t, i))
  }

  lemma RejoinedAt(k: Kernel, s: System, num: int, fd: int, f: File, t: int, i: int)
    requires k.Layout() && s.Shape() && s.Distinct() && s.Active(s.current) && 1 <= num <= MAX_PCB_NUM && num == s.Top(s.current).pid
    requires OthersMatch(k, s, num) && 0 <= fd < |s.Top(s.current).files| && s.At(t, i)
    requires s.At(s.current, |s.stacks[s.current]| - 1)
    requires k.FrameMatches(s.Top(s.current).(files := s.Top(s.current).files[fd := f]), k.BelowIn(s, s.current, |s.stacks[s.current]| - 1))
    ensures FiledAt(k, s, num, fd, f, t, i)
  {
    hide Kernel.FrameMatches, Kernel.Layout, System.Distinct, OthersMatch, Kernel.BelowIn, Kernel.FiledFrame, System.Top;
    var c, d := s.current, |s.stacks[s.current]| - 1;
    FrameOfPid(s, t, i);
    if s.stacks[t][i].pid != num { OtherMatches(k, s, num, t, i); }
    FiledFrameMatches(k, s.stacks[t][i], k.BelowIn(s, t, i), s.Top(c), k.BelowIn(s, c, d), fd, f);
  }

  lemma FiledFrameMatches(k: Kernel, frame: Frame, parent: Pcb?, top: Frame, below: Pcb?, fd: int, f: File)
    requires k.Layout() && 1 <= frame.pid <= MAX_PCB_NUM && 1 <= top.pid <= MAX_PCB_NUM && 0 <= fd < |top.files|
    requires if frame.pid == top.pid then frame == top && parent == below else k.FrameMatches(frame, parent)
    requires k.FrameMatches(top.(files := top.files[fd := f]), below)
    ensures k.FrameMatches(k.FiledFrame(frame, top.pid, fd, f), parent)
  {
    hide Kernel.FrameMatches, Kernel.Layout;
  }

  lemma AllFiled(k: Kernel, s: System, num: int, fd: int, f: File)
    requires k.Layout() && s.Distinct() && 0 <= fd
    requires forall t, i :: s.At(t, i) ==> FiledAt(k, s, num, fd, f, t, i)
    ensures k.FiledMatch(s, num, fd, f)
  {
    hide Kernel.FrameMatches, Kernel.Layout, System.Distinct, Kernel.BelowIn, Kernel.FiledFrame;
  }

  lemma FrameOfPid(s: System, t: int, i: int)
    requires s.Shape() && s.Distinct() && s.Active(s.current) && s.At(t, i)
    ensures 1 <= s.stacks[t][i].pid <= MAX_PCB_NUM
    ensures s.stacks[t][i].pid == s.Top(s.current).pid ==>
      t == s.current && i == |s.stacks[t]| - 1 && s.stacks[t][i] == s.Top(s.current)
  {
    assert s.At(s.current, |s.stacks[s.current]| - 1);
  }

  lemma OtherMatches(k: Kernel, s: System, num: int, t: int, i: int)
    requires k.Layout() && s.Distinct() && 1 <= num <= MAX_PCB_NUM && OthersMatch(k, s, num)
    requires s.At(t, i) && s.stacks[t][i].pid != num
    ensures 1 <= s.stacks[t][i].pid <= MAX_PCB_NUM && k.FrameMatches(s.stacks[t][i], k.BelowIn(s, t, i))
  {
    hide Kernel.FrameMatches, Kernel.Layout;
  }

  method ReadAdvances(k: Kernel, img: seq<Byte>, num: int, fd: int, ghost files: seq<File>, buf: array<Byte>, nbytes: int, base: nat)
    returns (r: int)
    requires k.Valid() && k.abs.Active(k.abs.current) && buf !in k.Repr() + {k.tables.pd, k.tables.pt}
    requires num == k.abs.Top(k.abs.current).pid && 1 <= num <= MAX_PCB_NUM && files == k.abs.Top(k.abs.current).files
    requires |files| == PCB_FILE_NUMBER && Open(files, fd)
    requires files[fd].kind in {Directory, Regular} && Answerable(img, files[fd], nbytes % U32, buf.Length)
    modifies k, k.blocks, buf
    ensures k.Valid()
    ensures var reply := ReplyOf(img, files[fd], nbytes % U32, buf.Length);
      && r == reply.result && buf[..] == reply.bytes + old(buf[..])[|reply.bytes|..]
      && k.abs == WithFiles(old(k.abs), files[fd := Moved(files[fd], reply.advance)])
  {
    hide Kernel.FrameMatches, Kernel.StacksMatch, Kernel.FiledMatch, Answerable, ReplyOf, PageTables.Valid;
    ghost var s := k.abs;
    ghost var f' := Moved(files[fd], ReplyOf(img, files[fd], nbytes % U32, buf.Length).advance);
    r := ReadOpen(k, img, num, fd, files, buf, nbytes, base, s);
    k.FilesRetopped(s, fd, f');
    hide Kernel.SlotsMatch, Kernel.TopsMatch, Kernel.PagesMatch;
    k.abs := WithFiles(s, files[fd := f']);
  }

  // read. base is the address of the buffer.
  method Read(k: Kernel, img: seq<Byte>, fd: int, buf: array<Byte>, nbytes: int, base: nat) returns (r: int)
    requires k.Valid() && CanRead(k.abs, img, fd, nbytes % U32, buf.Length)
    requires buf !in k.Repr() + {k.tables.pd, k.tables.pt}
    modifies k, k.blocks, buf
    ensures k.Valid()
    ensures var reply := CallReply(old(k.abs), img, fd, nbytes % U32, buf.Length);
      (k.abs, r) == ReadStep(old(k.abs), fd, reply) && buf[..] == reply.bytes + old(buf[..])[|reply.bytes|..]
  {
    hide Kernel.FrameMatches, Kernel.StacksMatch, Kernel.SlotsMatch, Kernel.PagesMatch, PageTables.Valid, System.Distinct,
      Answerable, ReadStep, CallReply, ReplyOf;
    ghost var files := k.abs.Top(k.abs.current).files;
    ReadCases(k.abs, img, fd, nbytes % U32, buf.Length);
    if fd < 0 || fd >= PCB_FILE_NUMBER { return -1; }
    var pcb := k.Running();
    if pcb == null { return -1; }
    k.TopFile(k.abs, fd);
    if pcb.file[fd].flag == 0 { return -1; }
    var num := k.pcbNum[k.currentTerminal];
    var op := k.fops[num - 1][fd].read;
    if op == DirectoryRead || op == ReadFile {
      r := ReadAdvances(k, img, num, fd, files, buf, nbytes, base);
    } else {
      r := if op == ReadRtc then 0 else -1;
    }
  }

  // The three ways a read can go.
  lemma ReadCases(s: System, img: seq<Byte>, fd: int, length: int, room: int)
    requires CanRead(s, img, fd, length, room)
    ensures var files, reply := s.Top(s.current).files, CallReply(s, img, fd, length, room);
      if !Open(files, fd) then ReadStep(s, fd, reply) == (s, -1) && reply.bytes == []
      else if files[fd].kind in {Directory, Regular} then
        reply == ReplyOf(img, files[fd], length, room)
        && ReadStep(s, fd, reply) == (WithFiles(s, files[fd := Moved(files[fd], reply.advance)]), reply.result)
      else ReadStep(s, fd, reply) == (s, if files[fd].kind == Rtc then 0 else -1) && reply.bytes == []
  {
    hide Answerable;
    SameFiles(s);
    if Open(s.Top(s.current).files, fd) && s.Top(s.current).files[fd].kind !in {Directory, Regular} {
      NotMoved(s.Top(s.current).files, fd);
    }
  }

  lemma NotMoved(files: seq<File>, fd: int)
    requires |files| == PCB_FILE_NUMBER && Open(files, fd)
    ensures files[fd := Moved(files[fd], 0)] == files
  {
    assert Moved(files[fd], 0) == files[fd];
  }

  // A read is the read event, with the reply that the image gives.
  lemma ReadIsEvent(s: System, img: seq<Byte>, fd: int, length: int, room: int)
    requires Ready(s) && CanRead(s, img, fd, length, room) && 0 <= length < U32
    ensures var reply := CallReply(s, img, fd, length, room);
      && ReadCall(fd, length, reply).Ok()
      && Step(s, ReadCall(fd, length, reply)) == (ReadStep(s, fd, reply).0, Returned(ReadStep(s, fd, reply).1))
  {
    hide D.Listing, D.NameRead, D.After, Readable, Answered;
  }

  // What a read of a directory returns, moves and stores: the name field of one
  // entry, closed by a NUL, and the length of the name.
  lemma DirectoryReplyInNumbers(img: seq<Byte>, f: File, length: int, room: int)
    requires Answerable(img, f, length, room) && f.kind == Directory
    ensures var a := 64 * (f.filePos + 1);
      if f.filePos < Word(img, 0)
      then a + 32 <= |img| && ReplyOf(img, f, length, room) == Reply(|Text(img[a..a + 32])|, 1, img[a..a + 32] + [0])
      else ReplyOf(img, f, length, room) == Reply(0, 0, [])
  {
    hide Word, Text;
    if f.filePos < D.Count(img) { D.EntryInNumbers(img, f.filePos); }
  }

  // What a read of a file or of one of the devices returns, moves and stores.
  lemma FileReplyInNumbers(img: seq<Byte>, f: File, length: int, room: int)
    requires Answerable(img, f, length, room) && f.kind != Directory && 0 <= f.inode < 0xFFFFF
    ensures f.kind == Regular ==> Readable(img, f.inode, f.filePos, length)
    ensures ReplyOf(img, f, length, room) ==
      if f.kind == Rtc then Reply(0, 0, [])
      else if f.kind != Regular then Reply(-1, 0, [])
      else match Answered(img, f.inode, f.filePos, length)
        case Failed => Reply(-1, 0, [])
        case Bytes(bytes) => Reply(|bytes|, |bytes|, bytes)
  {
    hide Answered, Readable, FileReads.Recovered;
    FileReads.InodeRecoveredIff(f.inode);
  }
}
