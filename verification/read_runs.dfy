// Reading a file over a whole run: one process opens it and reads it through
// its descriptor, while everything else goes on.
module ReadRuns {
  import opened Types
  import opened ProcessModel
  import opened ProcessSafety
  import opened ProcessRuns
  import opened FileSystem
  import opened FileReads
  import opened ProcessReads

  // ----- One process's descriptor -----

  // The process at a stack position is the one that runs.
  predicate Runs(s: System, t: int, i: int) {
    s.current == t && 0 <= t < |s.stacks| && |s.stacks[t]| == i + 1
  }

  // The event does not end that process or close its descriptor.
  ghost predicate Spares(s: System, e: Event, t: int, i: int, fd: int) {
    Runs(s, t, i) ==> !e.HaltCall? && !(e.CloseCall? && e.fd == fd)
  }

  ghost predicate ReadsIt(s: System, e: Event, t: int, i: int, fd: int) {
    Runs(s, t, i) && e.ReadCall? && e.fd == fd
  }

  ghost predicate HasOpen(s: System, t: int, i: int, fd: int) {
    s.At(t, i) && |s.stacks[t][i].files| == PCB_FILE_NUMBER && Open(s.stacks[t][i].files, fd)
  }

  // The process stays, and its descriptor moves by its own reads only.
  ghost predicate FileKept(s: System, e: Event, t: int, i: int, fd: int)
    requires Ready(s) && e.Ok() && HasOpen(s, t, i, fd)
  {
    var s' := Step(s, e).0;
    && HasOpen(s', t, i, fd)
    && s'.stacks[t][i].pid == s.stacks[t][i].pid
    && s'.stacks[t][i].files[fd] ==
         if ReadsIt(s, e, t, i, fd) then Moved(s.stacks[t][i].files[fd], e.reply.advance) else s.stacks[t][i].files[fd]
  }

  lemma ExecuteKeepsFile(s: System, known: bool, regs: Regs, t: int, i: int, fd: int)
    requires Inv(s) && regs.Nonzero() && HasOpen(s, t, i, fd)
    ensures FileKept(s, ExecuteCall(known, regs), t, i, fd)
  {
    hide System.Distinct, FramesOk, Mapped, Resumable, Loaded, FreeSlot;
    if known && FreeSlot(s) != -1 { ExecutePlaces(s, regs); }
  }

  lemma HaltKeepsFile(s: System, status: int, t: int, i: int, fd: int)
    requires Inv(s) && HasOpen(s, t, i, fd) && !Runs(s, t, i)
    ensures FileKept(s, HaltCall(status), t, i, fd)
  {
    hide System.Distinct, FramesOk, Mapped, Resumable, Loaded, Halt;
    if |s.stacks[s.current]| > 1 { HaltOfAChild(s, status); } else { HaltOfARoot(s, status); }
  }

  lemma TickKeepsFile(s: System, regs: Regs, t: int, i: int, fd: int)
    requires Inv(s) && regs.Nonzero() && HasOpen(s, t, i, fd)
    ensures FileKept(s, TimerTick(regs), t, i, fd)
  {
    hide System.Distinct, FramesOk, Mapped, Resumable, Loaded, Tick;
    TickStacks(s, regs);
  }

  lemma SwitchKeepsFile(s: System, u: int, regs: Regs, t: int, i: int, fd: int)
    requires Inv(s) && SwitchKey(u, regs).Ok() && HasOpen(s, t, i, fd)
    ensures FileKept(s, SwitchKey(u, regs), t, i, fd)
  {
    hide System.Distinct, FramesOk, Mapped, Resumable, Loaded, Switch;
    SwitchStacks(s, u, regs);
  }

  lemma CallsKeepFile(s: System, e: Event, t: int, i: int, fd: int)
    requires Inv(s) && e.Ok() && HasOpen(s, t, i, fd) && Spares(s, e, t, i, fd)
    requires e.OpenCall? || e.CloseCall? || e.ReadCall?
    ensures FileKept(s, e, t, i, fd)
  {
    hide System.Distinct, FramesOk, Mapped, Resumable, Loaded;
  }

  lemma StepKeepsFile(s: System, e: Event, t: int, i: int, fd: int)
    requires Inv(s) && e.Ok() && HasOpen(s, t, i, fd) && Spares(s, e, t, i, fd)
    ensures FileKept(s, e, t, i, fd)
  {
    hide HasOpen, FileKept, Runs;
    match e
    case ExecuteCall(known, regs) => ExecuteKeepsFile(s, known, regs, t, i, fd);
    case HaltCall(status) => HaltKeepsFile(s, status, t, i, fd);
    case TimerTick(regs) => TickKeepsFile(s, regs, t, i, fd);
    case SwitchKey(u, regs) => SwitchKeepsFile(s, u, regs, t, i, fd);
    case _ => CallsKeepFile(s, e, t, i, fd);
  }

  // ----- Runs -----

  ghost predicate KeepsOpen(s: System, es: seq<Event>, t: int, i: int, fd: int)
    requires Inv(s) && AllOk(es)
  {
    forall k :: 0 <= k < |es| ==> Spares(Run(s, es[..k]), es[k], t, i, fd)
  }

  // What the process asked for through the descriptor, and what it got.
  ghost function Asked(s: System, es: seq<Event>, t: int, i: int, fd: int): seq<int>
    requires Inv(s) && AllOk(es)
  {
    if es == [] then []
    else
      var n := |es| - 1;
      Asked(s, es[..n], t, i, fd) + if ReadsIt(Run(s, es[..n]), es[n], t, i, fd) then [es[n].length] else []
  }

  ghost function Got(s: System, es: seq<Event>, t: int, i: int, fd: int): seq<Byte>
    requires Inv(s) && AllOk(es)
  {
    if es == [] then []
    else
      var n := |es| - 1;
      Got(s, es[..n], t, i, fd) + if ReadsIt(Run(s, es[..n]), es[n], t, i, fd) then es[n].reply.bytes else []
  }

  // The process's reads are answered by the image, as Read does.
  ghost predicate Answers(img: seq<Byte>, s: System, e: Event, t: int, i: int, fd: int) {
    ReadsIt(s, e, t, i, fd) && HasOpen(s, t, i, fd) ==>
      exists room :: Answerable(img, s.stacks[t][i].files[fd], e.length, room)
        && e.reply == ReplyOf(img, s.stacks[t][i].files[fd], e.length, room)
  }

  // A call of Read is such an event.
  lemma ReadIsAnswered(img: seq<Byte>, s: System, fd: int, length: int, room: int, t: int, i: int)
    requires Ready(s) && CanRead(s, img, fd, length, room) && 0 <= length < U32
    ensures Answers(img, s, ReadCall(fd, length, CallReply(s, img, fd, length, room)), t, i, fd)
  {
    hide Answerable, ReplyOf;
  }

  ghost predicate AllAnswered(img: seq<Byte>, s: System, es: seq<Event>, t: int, i: int, fd: int)
    requires Inv(s) && AllOk(es)
  {
    forall k :: 0 <= k < |es| ==> Answers(img, Run(s, es[..k]), es[k], t, i, fd)
  }

  // The process has the file open at the end of what it has got, and it has
  // got what its requests deliver.
  ghost predicate Marks(img: seq<Byte>, n: int, s: System, t: int, i: int, fd: int, pid: int, asked: seq<int>, got: seq<Byte>) {
    && Requests(img, n, asked)
    && HasOpen(s, t, i, fd) && s.stacks[t][i].pid == pid
    && got == Delivered(img, n, asked)
    && s.stacks[t][i].files[fd] == InUse(Regular, n, |got|)
  }

  ghost predicate Followed(img: seq<Byte>, n: int, s: System, es: seq<Event>, t: int, i: int, fd: int)
    requires Inv(s) && AllOk(es) && s.At(t, i)
  {
    Marks(img, n, Run(s, es), t, i, fd, s.stacks[t][i].pid, Asked(s, es, t, i, fd), Got(s, es, t, i, fd))
  }

  lemma AnswerHere(img: seq<Byte>, n: int, s: System, e: Event, t: int, i: int, fd: int, pos: nat)
    requires e.Ok() && ReadsIt(s, e, t, i, fd) && HasOpen(s, t, i, fd) && Answers(img, s, e, t, i, fd)
    requires s.stacks[t][i].files[fd] == InUse(Regular, n, pos)
    requires IsFile(img, n) && |img| <= U32 && pos <= FileLength(img, n) && e.length + FileLength(img, n) < U32
    ensures Readable(img, n, pos, e.length) && Answered(img, n, pos, e.length).Bytes?
    ensures e.reply.bytes == Answered(img, n, pos, e.length).bytes && e.reply.advance == |e.reply.bytes|
  {
    InodeRecoveredIff(n);
    NeverFails(img, n, pos, e.length);
    hide Answered, IsFile, FileLength;
  }

  lemma DeliveredMore(img: seq<Byte>, n: int, sizes: seq<int>, k: int)
    requires Requests(img, n, sizes) && 0 <= k && k + FileLength(img, n) < U32
    ensures Requests(img, n, sizes + [k])
    ensures var d := Delivered(img, n, sizes);
      && Readable(img, n, |d|, k) && Answered(img, n, |d|, k).Bytes?
      && Delivered(img, n, sizes + [k]) == d + Answered(img, n, |d|, k).bytes
  {
    NeverFails(img, n, |Delivered(img, n, sizes)|, k);
    assert (sizes + [k])[..|sizes|] == sizes;
    hide Answered, Readable;
  }

  lemma MarkMoves(img: seq<Byte>, n: int, s: System, e: Event, t: int, i: int, fd: int, pid: int, asked: seq<int>, got: seq<Byte>)
    requires Inv(s) && e.Ok() && Marks(img, n, s, t, i, fd, pid, asked, got)
    requires Spares(s, e, t, i, fd) && Answers(img, s, e, t, i, fd)
    requires IsFile(img, n) && |img| <= U32 && (e.ReadCall? ==> e.length + FileLength(img, n) < U32)
    ensures if ReadsIt(s, e, t, i, fd) then Marks(img, n, Step(s, e).0, t, i, fd, pid, asked + [e.length], got + e.reply.bytes)
      else Marks(img, n, Step(s, e).0, t, i, fd, pid, asked, got)
  {
    assert Image(img) && 0 <= n < Inodes(img);
    hide Inv, Step, Spares, Answers, Requests, Delivered, IsFile, FileLength, Answered, Readable, Image, Inodes;
    StepKeepsFile(s, e, t, i, fd);
    if ReadsIt(s, e, t, i, fd) {
      AnswerHere(img, n, s, e, t, i, fd, |got|);
      DeliveredMore(img, n, asked, e.length);
    }
  }

  // One step of a followed process.
  lemma StepFollows(img: seq<Byte>, n: int, s: System, es: seq<Event>, t: int, i: int, fd: int)
    requires Inv(s) && AllOk(es) && es != [] && AllOk(es[..|es| - 1]) && es[|es| - 1].Ok() && s.At(t, i)
    requires Followed(img, n, s, es[..|es| - 1], t, i, fd)
    requires Spares(Run(s, es[..|es| - 1]), es[|es| - 1], t, i, fd) && Answers(img, Run(s, es[..|es| - 1]), es[|es| - 1], t, i, fd)
    requires IsFile(img, n) && |img| <= U32 && Image(img) && 0 <= n < Inodes(img)
    requires es[|es| - 1].ReadCall? ==> es[|es| - 1].length + FileLength(img, n) < U32
    ensures Followed(img, n, s, es, t, i, fd)
  {
    hide Inv, Step, Run, Asked, Got, Marks, ReadsIt, Spares, Answers, IsFile, FileLength, Image, Inodes, ProcessRuns.AllOk, Event.Ok;
    var m := |es| - 1;
    var p, asked, got := Run(s, es[..m]), Asked(s, es[..m], t, i, fd), Got(s, es[..m], t, i, fd);
    MarkMoves(img, n, p, es[m], t, i, fd, s.stacks[t][i].pid, asked, got);
    LastEvent(s, es, t, i, fd);
  }

  lemma LastEvent(s: System, es: seq<Event>, t: int, i: int, fd: int)
    requires Inv(s) && AllOk(es) && es != []
    ensures var m := |es| - 1;
      var p, asked, got := Run(s, es[..m]), Asked(s, es[..m], t, i, fd), Got(s, es[..m], t, i, fd);
      && Run(s, es) == Step(p, es[m]).0
      && (if ReadsIt(p, es[m], t, i, fd)
          then Asked(s, es, t, i, fd) == asked + [es[m].length] && Got(s, es, t, i, fd) == got + es[m].reply.bytes
          else Asked(s, es, t, i, fd) == asked && Got(s, es, t, i, fd) == got)
  {
    hide Inv, Step, ReadsIt;
    var m := |es| - 1;
    assert Asked(s, es[..m], t, i, fd) + [] == Asked(s, es[..m], t, i, fd);
    assert Got(s, es[..m], t, i, fd) + [] == Got(s, es[..m], t, i, fd);
  }

  lemma RunUpToLast(img: seq<Byte>, s: System, es: seq<Event>, t: int, i: int, fd: int)
    requires Inv(s) && AllOk(es) && es != [] && KeepsOpen(s, es, t, i, fd) && AllAnswered(img, s, es, t, i, fd)
    ensures var m := |es| - 1;
      && AllOk(es[..m]) && es[m].Ok() && KeepsOpen(s, es[..m], t, i, fd) && AllAnswered(img, s, es[..m], t, i, fd)
      && Spares(Run(s, es[..m]), es[m], t, i, fd) && Answers(img, Run(s, es[..m]), es[m], t, i, fd)
  {
    hide Inv, Run, Spares, Answers;
    forall k | 0 <= k < |es| - 1 ensures es[..|es| - 1][..k] == es[..k] {}
  }

  lemma {:induction false} RunFollows(img: seq<Byte>, n: int, s: System, es: seq<Event>, t: int, i: int, fd: int)
    requires Inv(s) && AllOk(es) && HasOpen(s, t, i, fd) && s.stacks[t][i].files[fd] == InUse(Regular, n, 0)
    requires IsFile(img, n) && |img| <= U32
    requires KeepsOpen(s, es, t, i, fd) && AllAnswered(img, s, es, t, i, fd)
    requires forall k :: 0 <= k < |es| && es[k].ReadCall? ==> es[k].length + FileLength(img, n) < U32
    ensures Followed(img, n, s, es, t, i, fd)
    decreases |es|
  {
    if es == [] {
      NothingRead(img, n, s, es, t, i, fd);
    } else {
      RunUpToLast(img, s, es, t, i, fd);
      InodeInImage(img, n);
      hide *;
      RunFollows(img, n, s, es[..|es| - 1], t, i, fd);
      StepFollows(img, n, s, es, t, i, fd);
    }
  }

  lemma InodeInImage(img: seq<Byte>, n: int)
    requires IsFile(img, n)
    ensures Image(img) && 0 <= n < Inodes(img)
  {
  }

  lemma NothingRead(img: seq<Byte>, n: int, s: System, es: seq<Event>, t: int, i: int, fd: int)
    requires Inv(s) && AllOk(es) && es == []
    requires HasOpen(s, t, i, fd) && s.stacks[t][i].files[fd] == InUse(Regular, n, 0) && IsFile(img, n)
    ensures Followed(img, n, s, es, t, i, fd)
  {
    hide Inv, IsFile, FileLength;
  }

  // ----- From open to the contents -----

  // The state and the descriptor after a successful open.
  lemma OpenedFile(s: System, n: nat, s1: System, fd: int)
    requires Inv(s) && n < U32 && fd != -1
    requires Step(s, OpenCall(Some(Dentry(Regular, n)))) == (s1, Returned(fd))
    ensures Inv(s1) && HasOpen(s1, s.current, |s.stacks[s.current]| - 1, fd)
    ensures s1.stacks[s.current][|s.stacks[s.current]| - 1].files[fd] == InUse(Regular, n, 0)
  {
    StepKeeps(s, OpenCall(Some(Dentry(Regular, n))));
    TopFilesOk(s);
    hide Inv, FilesOk;
    OpenKeepsFiles(s.Top(s.current).files, Some(Dentry(Regular, n)));
  }

  // The process lives and keeps the descriptor open, its reads are answered by
  // the image, and no request wraps around 32 bits.
  ghost predicate Undisturbed(img: seq<Byte>, n: int, s: System, es: seq<Event>, t: int, i: int, fd: int)
    requires Inv(s) && AllOk(es) && IsFile(img, n)
  {
    && KeepsOpen(s, es, t, i, fd) && AllAnswered(img, s, es, t, i, fd)
    && forall k :: 0 <= k < |es| && es[k].ReadCall? ==> es[k].length + FileLength(img, n) < U32
  }

  // The end-to-end claim. A process opens a regular file and reads it through
  // the descriptor. Whatever happens meanwhile on any terminal and through any
  // other descriptor: it has got what its requests deliver, the position is
  // their sum or the end of the file, and if no request crosses a block
  // boundary it has got the file from its beginning, in order and without gaps.
  lemma OpenThenRead(img: seq<Byte>, n: nat, s: System, s1: System, fd: int, t: int, i: int, es: seq<Event>)
    requires Inv(s) && n < U32 && fd != -1 && t == s.current && i == |s.stacks[t]| - 1
    requires Step(s, OpenCall(Some(Dentry(Regular, n)))) == (s1, Returned(fd)) && Inv(s1)
    requires IsFile(img, n) && |img| <= U32 && AllOk(es) && Undisturbed(img, n, s1, es, t, i, fd)
    ensures var asked, got := Asked(s1, es, t, i, fd), Got(s1, es, t, i, fd);
      && Requests(img, n, asked)
      && HasOpen(Run(s1, es), t, i, fd)
      && Run(s1, es).stacks[t][i].files[fd] == InUse(Regular, n, |got|)
      && |got| == Shorter(Sum(asked), FileLength(img, n))
      && (NoCrossing(img, n, asked) ==> got == Contents(img, n)[..|got|])
  {
    InodeInImage(img, n);
    OpenedFile(s, n, s1, fd);
    hide Inv, Step, Run, KeepsOpen, AllAnswered, HasOpen, IsFile, FileLength, NoCrossing, Requests, Delivered, Image, Inodes, Asked, Got;
    RunFollows(img, n, s1, es, t, i, fd);
    var asked := Asked(s1, es, t, i, fd);
    PositionIsSum(img, n, asked);
    if NoCrossing(img, n, asked) { ReadsDeliverPrefix(img, n, asked); }
  }
}
