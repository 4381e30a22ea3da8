// Reading a file through an open descriptor, one call after the other.
module FileReads {
  import opened Types
  import opened FileSystem
  import opened ProcessModel
  import opened ProcessTable

  // ----- The inode pointer of a descriptor -----

  // The inode number that read_file finds by the pointer, in 32-bit arithmetic.
  function InodeOf(pointer: int, bbStart: int): int { ((pointer - bbStart) % U32 / FOUR_KB - 1) % U32 }

  // The same for a pointer that open made from an inode number.
  function Recovered(inode: int): int { ((inode + 1) % (U32 / FOUR_KB) - 1) % U32 }

  lemma PointerGivesInode(bbStart: int, inode: int)
    ensures InodeOf(InodePointer(bbStart, inode), bbStart) == Recovered(inode)
  {
    WrapsBack(bbStart, (inode + 1) * FOUR_KB);
    BlockOfAddress(inode + 1);
  }

  lemma BlockOfAddress(k: int)
    ensures k * FOUR_KB % U32 / FOUR_KB == k % (U32 / FOUR_KB)
  {
  }

  lemma WrapsBack(b: int, a: int)
    ensures ((b + a) % U32 - b) % U32 == a % U32
  {
  }

  // The number comes back if and only if its block has a 32-bit address, or
  // it is the number just before 0.
  lemma InodeRecoveredIff(inode: int)
    requires 0 <= inode < U32
    ensures Recovered(inode) == inode <==> inode < U32 / FOUR_KB - 1 || inode == U32 - 1
  {
  }

  // ----- One read -----

  // The answer of the block image, as a system call gives it.
  ghost function FileReply(img: seq<Byte>, n: int, pos: int, length: int): Reply
    requires Readable(img, n, pos, length)
  {
    match Answered(img, n, pos, length)
    case Failed => Reply(-1, 0, [])
    case Bytes(bytes) => Reply(|bytes|, |bytes|, bytes)
  }

  // read_file. A negative count is passed on as a large length.
  method ReadFile(img: seq<Byte>, bbStart: int, file: array<FileDesc>, fd: int, buf: array<Byte>, nbytes: int)
    returns (r: int)
    requires 0 <= fd < file.Length
    requires Readable(img, InodeOf(file[fd].inodePtr, bbStart), file[fd].filePos, nbytes % U32)
    requires |FileReply(img, InodeOf(file[fd].inodePtr, bbStart), file[fd].filePos, nbytes % U32).bytes| <= buf.Length
    modifies file, buf
    ensures var d := old(file[fd]);
      var reply := FileReply(img, InodeOf(d.inodePtr, bbStart), d.filePos, nbytes % U32);
      && r == reply.result
      && buf[..] == reply.bytes + old(buf[..])[|reply.bytes|..]
      && file[..] == old(file[..])[fd := d.(filePos := d.filePos + reply.advance)]
  {
    var inode := InodeOf(file[fd].inodePtr, bbStart);
    r := ReadData(img, inode, file[fd].filePos, buf, nbytes % U32);
    if r > 0 {
      file[fd] := file[fd].(filePos := file[fd].filePos + r);
    }
  }

  lemma NeverFails(img: seq<Byte>, n: int, pos: int, k: int)
    requires IsFile(img, n) && 0 <= pos <= FileLength(img, n) && 0 <= k && k + FileLength(img, n) < U32
    ensures Readable(img, n, pos, k) && Answered(img, n, pos, k).Bytes?
    ensures |Answered(img, n, pos, k).bytes| == Shorter(k, FileLength(img, n) - pos)
  {
    assert n < U32;
    if pos < FileLength(img, n) { FirstBlock(img, n, pos); }
  }

  function Shorter(a: int, b: int): int { if a < b then a else b }

  // ----- Sequences of reads -----

  ghost predicate Requests(img: seq<Byte>, n: int, sizes: seq<int>) {
    IsFile(img, n) && forall i :: 0 <= i < |sizes| ==> 0 <= sizes[i] && sizes[i] + FileLength(img, n) < U32
  }

  // All bytes delivered by a sequence of reads on a fresh descriptor. Their
  // number is the file position.
  ghost function Delivered(img: seq<Byte>, n: int, sizes: seq<int>): (r: seq<Byte>)
    requires Requests(img, n, sizes)
    ensures |r| <= FileLength(img, n)
  {
    if sizes == [] then []
    else
      var m := |sizes| - 1;
      var before := Delivered(img, n, sizes[..m]);
      NeverFails(img, n, |before|, sizes[m]);
      before + Answered(img, n, |before|, sizes[m]).bytes
  }

  function Sum(sizes: seq<int>): int {
    if sizes == [] then 0 else Sum(sizes[..|sizes| - 1]) + sizes[|sizes| - 1]
  }

  // The file position is the sum of what was asked for, or the end of the file.
  lemma {:induction false} PositionIsSum(img: seq<Byte>, n: int, sizes: seq<int>)
    requires Requests(img, n, sizes)
    ensures |Delivered(img, n, sizes)| == Shorter(Sum(sizes), FileLength(img, n))
    ensures Sum(sizes) >= 0
  {
    assert Image(img) && 0 <= n < Inodes(img);
    hide IsFile, FileLength, Answered, Readable, Image, Inodes;
    if sizes != [] {
      var m := |sizes| - 1;
      PositionIsSum(img, n, sizes[..m]);
      NeverFails(img, n, |Delivered(img, n, sizes[..m])|, sizes[m]);
    }
  }

  // No read of the sequence crosses a block boundary within the file.
  ghost predicate NoCrossing(img: seq<Byte>, n: int, sizes: seq<int>)
    requires Requests(img, n, sizes)
  {
    forall i :: 0 <= i < |sizes| ==>
      var pos := Shorter(Sum(sizes[..i]), FileLength(img, n));
      pos % BLOCK + Shorter(sizes[i], FileLength(img, n) - pos) <= BLOCK
  }

  lemma NoCrossingBefore(img: seq<Byte>, n: int, sizes: seq<int>, m: nat)
    requires Requests(img, n, sizes) && NoCrossing(img, n, sizes) && m <= |sizes|
    ensures Requests(img, n, sizes[..m]) && NoCrossing(img, n, sizes[..m])
  {
    hide IsFile, FileLength;
    forall i | 0 <= i < m ensures sizes[..m][..i] == sizes[..i] {}
  }

  // One read that does not cross a block boundary.
  lemma ReadInBlock(img: seq<Byte>, n: int, pos: int, k: int)
    requires IsFile(img, n) && 0 <= pos <= FileLength(img, n) && 0 <= k && k + FileLength(img, n) < U32
    requires pos % BLOCK + Shorter(k, FileLength(img, n) - pos) <= BLOCK
    ensures Readable(img, n, pos, k)
    ensures Answered(img, n, pos, k) == Bytes(Contents(img, n)[pos..pos + Shorter(k, FileLength(img, n) - pos)])
  {
    NeverFails(img, n, pos, k);
    hide Contents, IsFile, FileLength;
    if pos < FileLength(img, n) { InPlaceAnswersSlice(img, n, pos, k); }
  }

  // Reads that do not cross blocks deliver the file from its beginning, in
  // order and without gaps, up to the position.
  lemma {:induction false} ReadsDeliverPrefix(img: seq<Byte>, n: int, sizes: seq<int>)
    requires Requests(img, n, sizes) && NoCrossing(img, n, sizes)
    ensures Delivered(img, n, sizes) == Contents(img, n)[..|Delivered(img, n, sizes)|]
  {
    assert Image(img) && 0 <= n < Inodes(img);
    hide Contents, IsFile, FileLength, Answered, Readable, Image, Inodes;
    if sizes != [] {
      var m := |sizes| - 1;
      NoCrossingBefore(img, n, sizes, m);
      ReadsDeliverPrefix(img, n, sizes[..m]);
      PositionIsSum(img, n, sizes[..m]);
      var pos := |Delivered(img, n, sizes[..m])|;
      ReadInBlock(img, n, pos, sizes[m]);
      var count := Shorter(sizes[m], FileLength(img, n) - pos);
      assert Contents(img, n)[..pos] + Contents(img, n)[pos..pos + count] == Contents(img, n)[..pos + count];
    }
  }

  // Reading a file to its end in chunks of a size that divides 4096 delivers
  // the file exactly, and every further read delivers nothing.
  lemma ChunksDeliverFile(img: seq<Byte>, n: int, c: int, count: nat, k: int)
    requires IsFile(img, n) && 0 <= k && k + FileLength(img, n) < U32
    requires 0 < c && BLOCK % c == 0 && c * count >= FileLength(img, n)
    ensures var sizes := seq(count, _ => c);
      && Requests(img, n, sizes)
      && Delivered(img, n, sizes) == Contents(img, n)
      && Requests(img, n, sizes + [k])
      && Delivered(img, n, sizes + [k]) == Contents(img, n)
  {
    var sizes := seq(count, _ => c);
    DividesAtMost(c);
    assert Requests(img, n, sizes);
    SumOfChunks(c, count);
    assert NoCrossing(img, n, sizes) by {
      forall i | 0 <= i < count
        ensures var pos := Shorter(Sum(sizes[..i]), FileLength(img, n));
          pos % BLOCK + Shorter(sizes[i], FileLength(img, n) - pos) <= BLOCK
      {
        assert sizes[..i] == seq(i, _ => c);
        SumOfChunks(c, i);
        ChunkStaysInBlock(c, i);
      }
    }
    ReadsDeliverPrefix(img, n, sizes);
    PositionIsSum(img, n, sizes);
    assert (sizes + [k])[..count] == sizes;
    NeverFails(img, n, FileLength(img, n), k);
  }

  lemma DividesAtMost(c: int)
    requires 0 < c && BLOCK % c == 0
    ensures c <= BLOCK
  {
  }

  lemma {:induction false} SumOfChunks(c: int, count: nat)
    ensures Sum(seq(count, _ => c)) == c * count
  {
    if count > 0 {
      SumOfChunks(c, count - 1);
      assert seq(count, _ => c)[..count - 1] == seq(count - 1, _ => c);
    }
  }

  lemma ChunkStaysInBlock(c: int, i: int)
    requires 0 < c && BLOCK % c == 0 && 0 <= i
    ensures c * i % BLOCK + c <= BLOCK
  {
    var m := BLOCK / c;
    assert c * m == BLOCK;
    var q, s := i / m, i % m;
    assert c * i == BLOCK * q + c * s by { assert i == m * q + s; assert c * (m * q) == (c * m) * q; }
    assert c * s <= c * (m - 1);
    assert c * (m - 1) == BLOCK - c;
    Remainder(c * i, q, c * s);
  }

  lemma Remainder(a: int, q: int, r: int)
    requires a == BLOCK * q + r && 0 <= r < BLOCK
    ensures a % BLOCK == r
  {
  }
}
