// Reading files out of the block image: read_data as the code computes it,
// what a file is, and exactly when the two agree.
module FileSystem {
  import opened Types
  import opened MemoryCopy

  const BLOCK := FOUR_KB
  const MAX_BLOCKS := 1023          // block numbers that fit in one inode block
  const STRIDE := BLOCK + 1         // bytes that read_data takes from a block before it moves on

  // ----- The image -----

  // A little-endian word. Addresses count from bb_start.
  function Word(img: seq<Byte>, a: int): (w: int)
    requires 0 <= a && a + 4 <= |img|
    ensures 0 <= w < U32
  {
    img[a] as int + 0x100 * img[a + 1] as int + 0x1_0000 * img[a + 2] as int + 0x100_0000 * img[a + 3] as int
  }

  function Inodes(img: seq<Byte>): int
    requires |img| >= BLOCK
  {
    Word(img, 4)
  }

  function Blocks(img: seq<Byte>): int
    requires |img| >= BLOCK
  {
    Word(img, 8)
  }

  function BlockStart(img: seq<Byte>, b: int): int
    requires |img| >= BLOCK
  {
    BLOCK + Inodes(img) * BLOCK + b * BLOCK
  }

  // The boot block, the inode blocks and the data blocks are all there, and
  // at least one byte of memory follows them.
  ghost predicate Image(img: seq<Byte>) {
    |img| >= BLOCK && Inodes(img) >= 1 && Blocks(img) >= 1 && |img| > BlockStart(img, Blocks(img))
  }

  function FileLength(img: seq<Byte>, n: int): int
    requires Image(img) && 0 <= n < Inodes(img)
  {
    Word(img, (n + 1) * BLOCK)
  }

  // Entry k of the block list of a file. The list may be read one entry past
  // the end of the inode block.
  function BlockNumber(img: seq<Byte>, n: int, k: int): int
    requires Image(img) && 0 <= n < Inodes(img) && 0 <= k <= MAX_BLOCKS
  {
    Word(img, (n + 1) * BLOCK + 4 + 4 * k)
  }

  // The file's length fits its block list, and every listed block from entry
  // q on is a data block.
  ghost predicate ListedFrom(img: seq<Byte>, n: int, q: int)
    requires Image(img) && 0 <= n < Inodes(img) && 0 <= q
  {
    && FileLength(img, n) <= MAX_BLOCKS * BLOCK
    && forall k :: q <= k && k * BLOCK < FileLength(img, n) ==> 0 <= BlockNumber(img, n, k) < Blocks(img)
  }

  // Where byte pos of a file is.
  function FileAddress(img: seq<Byte>, n: int, pos: int): int
    requires Image(img) && 0 <= n < Inodes(img) && 0 <= pos < MAX_BLOCKS * BLOCK
  {
    BlockStart(img, BlockNumber(img, n, pos / BLOCK)) + pos % BLOCK
  }

  // Where read_data finds byte j of a request at offset.
  function ReadAddress(img: seq<Byte>, n: int, offset: int, j: int): int
    requires Image(img) && 0 <= n < Inodes(img) && 0 <= offset && 0 <= j && offset + j < MAX_BLOCKS * BLOCK
  {
    var t := offset % BLOCK + j;
    StrideStaysInList(offset, j);
    BlockStart(img, BlockNumber(img, n, offset / BLOCK + t / STRIDE)) + t % STRIDE
  }

  lemma StrideStaysInList(offset: int, j: int)
    requires 0 <= offset && 0 <= j && offset + j < MAX_BLOCKS * BLOCK
    ensures 0 <= offset / BLOCK + (offset % BLOCK + j) / STRIDE <= (offset + j) / BLOCK < MAX_BLOCKS
  {
  }

  // ----- When the code's address is the right one -----

  // How far apart the two ways to split an offset are.
  lemma Drift(t: int)
    requires 0 <= t < MAX_BLOCKS * BLOCK
    ensures t % BLOCK - t % STRIDE == BLOCK * (t / STRIDE - t / BLOCK) + t / STRIDE
    ensures 0 <= t / STRIDE < MAX_BLOCKS && (t / STRIDE == 0 <==> t < STRIDE)
  {
  }

  // The code takes 4097 bytes from each block. A byte still comes from its
  // own place if it lies in the first block of the request, or if it is the
  // first byte of the second block and that block follows the first on disk.
  lemma ReadAddressIsRight(img: seq<Byte>, n: int, offset: int, j: int)
    requires Image(img) && 0 <= n < Inodes(img) && 0 <= offset && 0 <= j && offset + j < MAX_BLOCKS * BLOCK
    ensures ReadAddress(img, n, offset, j) == FileAddress(img, n, offset + j) <==> FromItsPlace(img, n, offset, j)
  {
    var q, t := offset / BLOCK, offset % BLOCK + j;
    assert (offset + j) / BLOCK == q + t / BLOCK && (offset + j) % BLOCK == t % BLOCK;
    StrideStaysInList(offset, j);
    Drift(t);
    SameAddress(BlockNumber(img, n, q + t / STRIDE), BlockNumber(img, n, q + t / BLOCK), t);
  }

  lemma SameAddress(b: int, c: int, t: int)
    requires 0 <= t < MAX_BLOCKS * BLOCK
    ensures b * BLOCK + t % STRIDE == c * BLOCK + t % BLOCK <==>
      if t < BLOCK then b == c else t == BLOCK && c == b + 1
  {
    Drift(t);
  }

  ghost predicate FromItsPlace(img: seq<Byte>, n: int, offset: int, j: int)
    requires Image(img) && 0 <= n < Inodes(img) && 0 <= offset && 0 <= j && offset + j < MAX_BLOCKS * BLOCK
  {
    || offset % BLOCK + j < BLOCK
    || (offset % BLOCK + j == BLOCK && NextIsAdjacent(img, n, offset / BLOCK))
  }

  predicate NextIsAdjacent(img: seq<Byte>, n: int, q: int)
    requires Image(img) && 0 <= n < Inodes(img) && 0 <= q < MAX_BLOCKS
  {
    BlockNumber(img, n, q + 1) == BlockNumber(img, n, q) + 1
  }

  // ----- read_data -----

  // The length that read_data copies, with the 32-bit sum of its test.
  function Clamped(length: int, offset: int, fileLength: int): int {
    if (length + offset) % U32 > fileLength then fileLength - offset else length
  }

  // The clamp stops at the end of the file exactly when the sum does not wrap.
  lemma ClampIsRightIffNoWrap(length: int, offset: int, fileLength: int)
    requires 0 <= length < U32 && 0 <= offset < fileLength < U32
    ensures Clamped(length, offset, fileLength) == (if length < fileLength - offset then length else fileLength - offset)
      <==> length + offset < U32
  {
  }

  // What a request is answered with: -1, or the bytes that are copied.
  datatype Answer = Failed | Bytes(bytes: seq<Byte>)

  // The preconditions of a request: the sum does not wrap, and if the inode
  // exists its list is good from the entry after the first one on. The first
  // entry is checked by the code.
  ghost predicate Readable(img: seq<Byte>, n: int, offset: int, length: int) {
    && Image(img)
    && 0 <= n < U32 && 0 <= offset && 0 <= length && length + offset < U32
    && (n < Inodes(img) ==> ListedFrom(img, n, offset / BLOCK + 1))
  }

  function Answered(img: seq<Byte>, n: int, offset: int, length: int): (r: Answer)
    requires Readable(img, n, offset, length)
    ensures r.Bytes? ==> |r.bytes| <= length
  {
    if n > (Inodes(img) - 1) % U32 then Failed
    else if offset >= FileLength(img, n) then Bytes([])
    else if BlockNumber(img, n, offset / BLOCK) >= Blocks(img) then Failed
    else
      var count := Clamped(length, offset, FileLength(img, n));
      Bytes(seq(count, j requires 0 <= j < count =>
        ReadAddressInImage(img, n, offset, j);
        img[ReadAddress(img, n, offset, j)]))
  }

  lemma ReadAddressInImage(img: seq<Byte>, n: int, offset: int, j: int)
    requires Image(img) && 0 <= n < Inodes(img) && 0 <= offset && ListedFrom(img, n, offset / BLOCK + 1)
    requires 0 <= j && offset + j < FileLength(img, n)
    requires BlockNumber(img, n, offset / BLOCK) < Blocks(img)
    ensures offset + j < MAX_BLOCKS * BLOCK
    ensures 0 <= ReadAddress(img, n, offset, j) < |img|
  {
    StrideStaysInList(offset, j);
    var k := offset / BLOCK + (offset % BLOCK + j) / STRIDE;
    assert k * BLOCK < FileLength(img, n);
    assert BlockNumber(img, n, k) < Blocks(img);
  }

  // buf takes what the request is answered with, which may be much less than
  // the length asked for.
  method ReadData(img: seq<Byte>, inode: int, offset: int, buf: array<Byte>, length: int) returns (r: int)
    requires Readable(img, inode, offset, length)
    requires var a := Answered(img, inode, offset, length); a.Bytes? ==> |a.bytes| <= buf.Length
    modifies buf
    ensures match Answered(img, inode, offset, length)
      case Failed => r == -1 && buf[..] == old(buf[..])
      case Bytes(bytes) => r == |bytes| && buf[..] == bytes + old(buf[..])[|bytes|..]
  {
    var numInodes := Word(img, 4);
    var numBlocks := Word(img, 8);
    if inode > (numInodes - 1) % U32 { return -1; }
    var inodeAddr := (inode + 1) * BLOCK;
    var fileLength := Word(img, inodeAddr);
    if offset >= fileLength { return 0; }
    var count := length;
    if (length + offset) % U32 > fileLength { count := fileLength - offset; }
    var quotient := offset / BLOCK;
    var remain := offset % BLOCK;
    var dataBlockPtr := inodeAddr + 4 + 4 * quotient;
    var dataBlock := Word(img, dataBlockPtr);
    if dataBlock >= numBlocks { return -1; }
    hide Word, Answered, ReadAddress;
    AnswerBytes(img, inode, offset, length);
    TakeBytes(img, inode, offset, buf, count, numInodes, dataBlockPtr, dataBlock, remain, Answered(img, inode, offset, length).bytes);
    return count;
  }

  // The bytes are those at the addresses of a request.
  ghost predicate BytesAt(img: seq<Byte>, n: int, offset: int, bytes: seq<Byte>)
    requires Image(img) && 0 <= n < Inodes(img) && 0 <= offset
  {
    forall j :: 0 <= j < |bytes| ==>
      && offset + j < MAX_BLOCKS * BLOCK
      && 0 <= ReadAddress(img, n, offset, j) < |img|
      && bytes[j] == img[ReadAddress(img, n, offset, j)]
  }

  // What is answered to a request that gets past the three tests.
  lemma AnswerBytes(img: seq<Byte>, n: int, offset: int, length: int)
    requires Readable(img, n, offset, length) && n < Inodes(img) && offset < FileLength(img, n)
    requires BlockNumber(img, n, offset / BLOCK) < Blocks(img)
    ensures Answered(img, n, offset, length).Bytes?
    ensures var bytes := Answered(img, n, offset, length).bytes;
      && |bytes| == Clamped(length, offset, FileLength(img, n))
      && offset + |bytes| <= FileLength(img, n) && BytesAt(img, n, offset, bytes)
  {
    hide Word;
    var count := Clamped(length, offset, FileLength(img, n));
    forall j | 0 <= j < count
      ensures offset + j < MAX_BLOCKS * BLOCK && 0 <= ReadAddress(img, n, offset, j) < |img|
    {
      ReadAddressInImage(img, n, offset, j);
    }
    hide ReadAddress;
  }

  // The loop of read_data, from the first block on.
  method TakeBytes(img: seq<Byte>, inode: int, offset: int, buf: array<Byte>, count: int, numInodes: int, ptr: int, block: int, remain: int, ghost bytes: seq<Byte>)
    requires Image(img) && 0 <= inode < Inodes(img) && 0 <= offset && ListedFrom(img, inode, offset / BLOCK + 1)
    requires count == |bytes| <= buf.Length && offset + count <= FileLength(img, inode) && offset < FileLength(img, inode)
    requires BlockNumber(img, inode, offset / BLOCK) < Blocks(img)
    requires remain == offset % BLOCK && numInodes == Inodes(img) && ptr == (inode + 1) * BLOCK + 4 + 4 * (offset / BLOCK)
    requires block == BlockNumber(img, inode, offset / BLOCK)
    requires BytesAt(img, inode, offset, bytes)
    modifies buf
    ensures buf[..] == bytes + old(buf[..])[count..]
  {
    var dataBlockPtr, dataBlock := ptr, block;
    var dataAddr := BLOCK + numInodes * BLOCK + dataBlock * BLOCK + remain;
    var i := remain;
    ghost var m := 0;
    for j := 0 to count
      invariant Reading(img, inode, offset, j, m, i, dataBlockPtr, dataAddr)
      invariant forall k :: 0 <= k < j ==> buf[k] == bytes[k]
      invariant forall k :: j <= k < buf.Length ==> buf[k] == old(buf[k])
    {
      ReadingHere(img, inode, offset, j, m, i, dataBlockPtr, dataAddr);
      ReadingNext(img, inode, offset, j, m, i, dataBlockPtr, dataAddr);
      hide Reading, Word;
      buf[j] := img[dataAddr];
      dataAddr := dataAddr + 1;
      i := i + 1;
      if i > BLOCK {
        dataBlockPtr := dataBlockPtr + 4;
        dataBlock := Word(img, dataBlockPtr);
        dataAddr := BLOCK + numInodes * BLOCK + dataBlock * BLOCK;
        i := 0;
        m := m + 1;
      }
    }
    assert buf[..] == bytes + old(buf[..])[count..];
  }

  // Where the loop stands before byte j: m blocks have been used up, and the
  // next byte is at index i of the current one.
  ghost predicate Reading(img: seq<Byte>, n: int, offset: int, j: int, m: int, i: int, ptr: int, addr: int) {
    && Image(img) && 0 <= n < Inodes(img) && 0 <= offset
    && 0 <= i <= BLOCK && 0 <= m && offset % BLOCK + j == STRIDE * m + i
    && offset / BLOCK + m <= MAX_BLOCKS
    && ptr == (n + 1) * BLOCK + 4 + 4 * (offset / BLOCK + m)
    && addr == BlockStart(img, BlockNumber(img, n, offset / BLOCK + m)) + i
  }

  lemma ReadingHere(img: seq<Byte>, n: int, offset: int, j: int, m: int, i: int, ptr: int, addr: int)
    requires Reading(img, n, offset, j, m, i, ptr, addr) && ListedFrom(img, n, offset / BLOCK + 1)
    requires 0 <= j && offset + j < FileLength(img, n) && BlockNumber(img, n, offset / BLOCK) < Blocks(img)
    ensures offset + j < MAX_BLOCKS * BLOCK && addr == ReadAddress(img, n, offset, j) && 0 <= addr < |img|
    ensures offset / BLOCK + m + 1 <= MAX_BLOCKS && 0 <= ptr && ptr + 8 <= |img|
  {
    ReadAddressInImage(img, n, offset, j);
    Split(offset % BLOCK + j, m, i);
    StrideStaysInList(offset, j);
  }

  lemma ReadingNext(img: seq<Byte>, n: int, offset: int, j: int, m: int, i: int, ptr: int, addr: int)
    requires Reading(img, n, offset, j, m, i, ptr, addr)
    requires offset / BLOCK + m + 1 <= MAX_BLOCKS && 0 <= ptr && ptr + 8 <= |img|
    ensures i + 1 <= BLOCK ==> Reading(img, n, offset, j + 1, m, i + 1, ptr, addr + 1)
    ensures i + 1 > BLOCK ==>
      Reading(img, n, offset, j + 1, m + 1, 0, ptr + 4, BLOCK + Inodes(img) * BLOCK + Word(img, ptr + 4) * BLOCK)
  {
    hide Word;
    assert ptr + 4 == (n + 1) * BLOCK + 4 + 4 * (offset / BLOCK + (m + 1));
  }

  lemma Split(t: int, m: int, i: int)
    requires 0 <= i < STRIDE && 0 <= m && t == STRIDE * m + i
    ensures t / STRIDE == m && t % STRIDE == i
  {
  }

  // ----- What a file is, and when read_data returns a piece of it -----

  ghost predicate IsFile(img: seq<Byte>, n: int) {
    Image(img) && 0 <= n < Inodes(img) && ListedFrom(img, n, 0)
  }

  lemma FileAddressInImage(img: seq<Byte>, n: int, pos: int)
    requires IsFile(img, n) && 0 <= pos < FileLength(img, n)
    ensures pos < MAX_BLOCKS * BLOCK
    ensures DataStart(img) <= FileAddress(img, n, pos) < |img|
  {
    assert pos / BLOCK * BLOCK < FileLength(img, n);
    assert 0 <= BlockNumber(img, n, pos / BLOCK) < Blocks(img);
  }

  function DataStart(img: seq<Byte>): int
    requires |img| >= BLOCK
  {
    BlockStart(img, 0)
  }

  ghost function Contents(img: seq<Byte>, n: int): (r: seq<Byte>)
    requires IsFile(img, n)
    ensures |r| == FileLength(img, n)
  {
    seq(FileLength(img, n), i requires 0 <= i < FileLength(img, n) =>
      FileAddressInImage(img, n, i);
      img[FileAddress(img, n, i)])
  }

  // The request stays in the block it starts in, up to the single byte that
  // an adjacent next block may add.
  ghost predicate InPlace(img: seq<Byte>, n: int, offset: int, count: int)
    requires IsFile(img, n) && 0 <= offset && 0 <= count && offset + count <= FileLength(img, n)
  {
    || offset % BLOCK + count <= BLOCK
    || (offset % BLOCK + count == BLOCK + 1 && NextIsAdjacent(img, n, offset / BLOCK))
  }

  // The answer to a request is the file's own bytes, clamped at its end.
  ghost predicate AnswersSlice(img: seq<Byte>, n: int, offset: int, length: int) {
    && IsFile(img, n) && Readable(img, n, offset, length) && offset < FileLength(img, n)
    && var count := Clamped(length, offset, FileLength(img, n));
       Answered(img, n, offset, length) == Bytes(Contents(img, n)[offset..offset + count])
  }

  lemma InPlaceAnswersSlice(img: seq<Byte>, n: int, offset: int, length: int)
    requires IsFile(img, n) && 0 <= offset < FileLength(img, n) && 0 <= length && length + offset < U32
    requires InPlace(img, n, offset, Clamped(length, offset, FileLength(img, n)))
    ensures AnswersSlice(img, n, offset, length)
  {
    var count := Clamped(length, offset, FileLength(img, n));
    FirstBlock(img, n, offset);
    hide Word, Answered, ReadAddress, FileAddress;
    AnswerBytes(img, n, offset, length);
    var bytes := Answered(img, n, offset, length).bytes;
    forall j | 0 <= j < count ensures bytes[j] == Contents(img, n)[offset..offset + count][j] {
      ReadAddressIsRight(img, n, offset, j);
    }
  }

  lemma FirstBlock(img: seq<Byte>, n: int, offset: int)
    requires IsFile(img, n) && 0 <= offset < FileLength(img, n)
    ensures 0 <= offset / BLOCK < MAX_BLOCKS && 0 <= BlockNumber(img, n, offset / BLOCK) < Blocks(img)
  {
    assert offset / BLOCK * BLOCK < FileLength(img, n);
  }

  // Two images that differ in their data blocks only.
  ghost predicate SameLayout(img: seq<Byte>, other: seq<Byte>) {
    Image(img) && |img| == |other| && img[..DataStart(img)] == other[..DataStart(img)]
  }

  lemma SameWord(img: seq<Byte>, other: seq<Byte>, a: int)
    requires SameLayout(img, other) && 0 <= a && a + 4 <= DataStart(img)
    ensures Word(img, a) == Word(other, a)
  {
    forall k | 0 <= k < DataStart(img) ensures img[k] == other[k] {
      assert img[..DataStart(img)][k] == other[..DataStart(img)][k];
    }
  }

  lemma SameFile(img: seq<Byte>, other: seq<Byte>, n: int)
    requires SameLayout(img, other) && IsFile(img, n)
    ensures IsFile(other, n) && DataStart(other) == DataStart(img)
    ensures FileLength(other, n) == FileLength(img, n)
    ensures forall k :: 0 <= k < MAX_BLOCKS ==> BlockNumber(other, n, k) == BlockNumber(img, n, k)
  {
    hide Word;
    SameWord(img, other, 4);
    SameWord(img, other, 8);
    SameWord(img, other, (n + 1) * BLOCK);
    assert Image(other) && 0 <= n < Inodes(other);
    forall k | 0 <= k < MAX_BLOCKS ensures BlockNumber(other, n, k) == BlockNumber(img, n, k) {
      SameWord(img, other, (n + 1) * BLOCK + 4 + 4 * k);
    }
    assert ListedFrom(other, n, 0) by {
      forall k | 0 <= k && k * BLOCK < FileLength(other, n) ensures 0 <= BlockNumber(other, n, k) < Blocks(other) {
        assert BlockNumber(other, n, k) == BlockNumber(img, n, k);
      }
    }
  }

  // A request returns the slice of the file, whatever the data blocks hold,
  // if and only if it stays in place.
  lemma SliceIffInPlace(img: seq<Byte>, n: int, offset: int, length: int)
    requires IsFile(img, n) && 0 <= offset < FileLength(img, n) && 0 <= length && length + offset < U32
    ensures (forall other :: SameLayout(img, other) ==> AnswersSlice(other, n, offset, length))
      <==> InPlace(img, n, offset, Clamped(length, offset, FileLength(img, n)))
  {
    var count := Clamped(length, offset, FileLength(img, n));
    if InPlace(img, n, offset, count) {
      forall other | SameLayout(img, other) ensures AnswersSlice(other, n, offset, length) {
        SameFile(img, other, n);
        NextBlockListed(img, n, offset, count);
        InPlaceAnswersSlice(other, n, offset, length);
      }
    } else {
      var other := Spoiled(img, n, offset, length);
      assert SameLayout(img, other) && !AnswersSlice(other, n, offset, length);
    }
  }

  lemma NextBlockListed(img: seq<Byte>, n: int, offset: int, count: int)
    requires IsFile(img, n) && 0 <= offset < FileLength(img, n) && 0 <= count && offset + count <= FileLength(img, n)
    ensures offset % BLOCK + count > BLOCK ==> offset / BLOCK + 1 < MAX_BLOCKS
  {
  }

  // A request that does not stay in place goes wrong on some contents.
  lemma Spoiled(img: seq<Byte>, n: int, offset: int, length: int) returns (other: seq<Byte>)
    requires IsFile(img, n) && 0 <= offset < FileLength(img, n) && 0 <= length && length + offset < U32
    requires !InPlace(img, n, offset, Clamped(length, offset, FileLength(img, n)))
    ensures SameLayout(img, other) && !AnswersSlice(other, n, offset, length)
  {
    hide Word;
    var count := Clamped(length, offset, FileLength(img, n));
    var j := if NextIsAdjacent(img, n, offset / BLOCK) then BLOCK + 1 - offset % BLOCK else BLOCK - offset % BLOCK;
    assert 0 <= j < count && !FromItsPlace(img, n, offset, j);
    FirstBlock(img, n, offset);
    ReadAddressInImage(img, n, offset, j);
    ReadAddressIsRight(img, n, offset, j);
    FileAddressInImage(img, n, offset + j);
    var a, b := ReadAddress(img, n, offset, j), FileAddress(img, n, offset + j);
    ReadAddressInData(img, n, offset, j);
    other := img[a := if img[b] == 0 then 1 else 0];
    PokeKeepsLayout(img, a, other[a]);
    SameFile(img, other, n);
    SameAddresses(img, other, n, offset, j);
    hide ReadAddress, FileAddress, Image, ListedFrom;
    WrongByte(other, n, offset, length, j);
  }

  lemma PokeKeepsLayout(img: seq<Byte>, a: int, v: Byte)
    requires Image(img) && DataStart(img) <= a < |img|
    ensures SameLayout(img, img[a := v])
  {
  }

  lemma WrongByte(img: seq<Byte>, n: int, offset: int, length: int, j: int)
    requires IsFile(img, n) && 0 <= offset < FileLength(img, n) && 0 <= length && length + offset < U32
    requires 0 <= j < Clamped(length, offset, FileLength(img, n))
    requires offset + j < MAX_BLOCKS * BLOCK
    requires 0 <= ReadAddress(img, n, offset, j) < |img| && 0 <= FileAddress(img, n, offset + j) < |img|
    requires img[ReadAddress(img, n, offset, j)] != img[FileAddress(img, n, offset + j)]
    ensures !AnswersSlice(img, n, offset, length)
  {
    hide ReadAddress, FileAddress, Word;
    FirstBlock(img, n, offset);
    var count := Clamped(length, offset, FileLength(img, n));
    assert Contents(img, n)[offset..offset + count][j] == img[FileAddress(img, n, offset + j)];
    assert Answered(img, n, offset, length).bytes[j] == img[ReadAddress(img, n, offset, j)];
  }

  lemma ReadAddressInData(img: seq<Byte>, n: int, offset: int, j: int)
    requires IsFile(img, n) && 0 <= offset && 0 <= j && offset + j < FileLength(img, n)
    ensures offset + j < MAX_BLOCKS * BLOCK && DataStart(img) <= ReadAddress(img, n, offset, j)
  {
    StrideStaysInList(offset, j);
  }

  lemma SameAddresses(img: seq<Byte>, other: seq<Byte>, n: int, offset: int, j: int)
    requires SameLayout(img, other) && IsFile(img, n) && IsFile(other, n)
    requires 0 <= offset && 0 <= j && offset + j < FileLength(img, n) == FileLength(other, n)
    ensures offset + j < MAX_BLOCKS * BLOCK
    ensures ReadAddress(other, n, offset, j) == ReadAddress(img, n, offset, j)
    ensures FileAddress(other, n, offset + j) == FileAddress(img, n, offset + j)
  {
    SameFile(img, other, n);
    StrideStaysInList(offset, j);
  }

  // ----- The copy loop of loader -----

  // A request for one whole block, or for the last piece of the file.
  lemma BlockRequest(img: seq<Byte>, n: int, k: int, length: int)
    requires IsFile(img, n) && 0 <= k && 0 <= length <= BLOCK
    requires k * BLOCK + length <= FileLength(img, n) && (length == 0 ==> k * BLOCK == FileLength(img, n))
    ensures Readable(img, n, k * BLOCK, length)
    ensures Answered(img, n, k * BLOCK, length) == Bytes(Contents(img, n)[k * BLOCK..k * BLOCK + length])
  {
    hide Answered, Contents, Word;
    if length > 0 {
      InPlaceAnswersSlice(img, n, k * BLOCK, length);
    } else {
      NothingLeft(img, n, k * BLOCK);
    }
  }

  lemma NothingLeft(img: seq<Byte>, n: int, offset: int)
    requires IsFile(img, n) && offset == FileLength(img, n)
    ensures Readable(img, n, offset, 0)
    ensures Answered(img, n, offset, 0) == Bytes(Contents(img, n)[offset..offset])
  {
    hide Word;
  }

  // One more piece arrives.
  lemma ArrivedMore(now: seq<Byte>, file: seq<Byte>, before: seq<Byte>, des: nat, size: nat)
    requires Arrived(now, file, before, des) && des + size <= |file|
    ensures |now| == |before| && Arrived(Spliced(now, des, file[des..des + size]), file, before, des + size)
  {
    PieceExtends(file, before, des, size);
  }

  // dest while the file's bytes arrive from the front.
  lemma PieceExtends(file: seq<Byte>, before: seq<Byte>, des: nat, size: nat)
    requires des + size <= |file| <= |before|
    ensures Spliced(file[..des] + before[des..], des, file[des..des + size]) == file[..des + size] + before[des + size..]
  {
    assert file[..des] + file[des..des + size] == file[..des + size];
  }

  // The first des bytes of dest are the file's; the rest is as before.
  ghost predicate Arrived(now: seq<Byte>, file: seq<Byte>, before: seq<Byte>, des: int) {
    0 <= des <= |file| <= |before| && now == file[..des] + before[des..]
  }

  // Copies the file behind inode n, one block at a time, to dest.
  method LoadFile(img: seq<Byte>, n: int, dest: array<Byte>, base: nat)
    requires IsFile(img, n) && FileLength(img, n) <= dest.Length
    modifies dest
    ensures dest[..] == Contents(img, n) + old(dest[..])[FileLength(img, n)..]
  {
    hide Contents, IsFile, Arrived, FileLength, Word;
    SizeOfFile(img, n);
    ghost var file, before := Contents(img, n), dest[..];
    var fileSize := Word(img, (n + 1) * BLOCK);
    NothingArrived(file, before);
    var copyBuf := new Byte[BLOCK](_ => NUL);
    var size, i := fileSize, 0;
    if fileSize > BLOCK {
      i, size := LoadBlocks(img, n, fileSize, copyBuf, dest, base, before);
    }
    LoadPiece(img, n, i, size, copyBuf, dest, base, before);
    ArrivedAll(dest[..], file, before);
  }

  lemma SizeOfFile(img: seq<Byte>, n: int)
    requires IsFile(img, n)
    ensures 0 <= (n + 1) * BLOCK && (n + 1) * BLOCK + 4 <= |img| && FileLength(img, n) == Word(img, (n + 1) * BLOCK)
  {
  }

  // The loop of loader: whole blocks, until at most one is left.
  method LoadBlocks(img: seq<Byte>, n: int, fileSize: int, copyBuf: array<Byte>, dest: array<Byte>, base: nat, ghost before: seq<Byte>)
    returns (i: int, size: int)
    requires IsFile(img, n) && BLOCK < fileSize == FileLength(img, n) <= dest.Length && copyBuf.Length == BLOCK && copyBuf != dest
    requires Arrived(dest[..], Contents(img, n), before, 0)
    modifies copyBuf, dest
    ensures 0 <= i && 0 < size <= BLOCK && i * BLOCK + size == fileSize
    ensures Arrived(dest[..], Contents(img, n), before, i * BLOCK)
  {
    hide Contents, IsFile, Arrived, FileLength;
    size, i := fileSize, 0;
    while size > BLOCK
      invariant 0 <= i && 0 < size && i * BLOCK + size == fileSize
      invariant Arrived(dest[..], Contents(img, n), before, i * BLOCK)
      decreases size
    {
      LoadPiece(img, n, i, BLOCK, copyBuf, dest, base, before);
      size, i := size - BLOCK, i + 1;
    }
  }

  lemma NothingArrived(file: seq<Byte>, before: seq<Byte>)
    requires |file| <= |before|
    ensures Arrived(before, file, before, 0)
  {
  }

  lemma ArrivedAll(now: seq<Byte>, file: seq<Byte>, before: seq<Byte>)
    requires Arrived(now, file, before, |file|)
    ensures now == file + before[|file|..]
  {
  }

  // One read_data into the copy buffer and one memcpy to the destination.
  method LoadPiece(img: seq<Byte>, n: int, i: int, size: int, copyBuf: array<Byte>, dest: array<Byte>, base: nat, ghost before: seq<Byte>)
    requires IsFile(img, n) && 0 <= i && 0 <= size <= BLOCK == copyBuf.Length && copyBuf != dest
    requires i * BLOCK + size <= FileLength(img, n) <= dest.Length && (size == 0 ==> i * BLOCK == FileLength(img, n))
    requires Arrived(dest[..], Contents(img, n), before, i * BLOCK)
    modifies copyBuf, dest
    ensures Arrived(dest[..], Contents(img, n), before, i * BLOCK + size)
  {
    hide Contents, IsFile, FileLength, Arrived, Spliced;
    ArrivedMore(dest[..], Contents(img, n), before, i * BLOCK, size);
    FetchPiece(img, n, i, size, copyBuf);
    MemCpy(dest, i * BLOCK, copyBuf, 0, size, base);
  }

  method FetchPiece(img: seq<Byte>, n: int, i: int, size: int, copyBuf: array<Byte>)
    requires IsFile(img, n) && 0 <= i && 0 <= size <= BLOCK == copyBuf.Length
    requires i * BLOCK + size <= FileLength(img, n) && (size == 0 ==> i * BLOCK == FileLength(img, n))
    modifies copyBuf
    ensures copyBuf[..][0..0 + size] == Contents(img, n)[i * BLOCK..i * BLOCK + size]
  {
    hide Answered, Contents, IsFile, Readable, FileLength;
    BlockRequest(img, n, i, size);
    var _ := ReadData(img, n, i * BLOCK, copyBuf, size);
  }

  // ----- The format of the image, in numbers -----

  // The four bytes of a little-endian number mean the number.
  lemma WordOfNumber(v: int)
    requires 0 <= v < 0x1_0000_0000
    ensures Word([v % 256, v / 256 % 256, v / 65536 % 256, v / 16777216], 0) == v
  {
  }

  // A word is what its four bytes mean.
  lemma WordOfBytes(img: seq<Byte>, a: int, v: int)
    requires 0 <= a && a + 4 <= |img| && 0 <= v < 0x1_0000_0000
    ensures Word(img, a) == v <==> img[a..a + 4] == [v % 256, v / 256 % 256, v / 65536 % 256, v / 16777216]
  {
    var b0, b1, b2, b3 := img[a] as int, img[a + 1] as int, img[a + 2] as int, img[a + 3] as int;
    WordBytes(b0, b1, b2, b3);
    NumberOfBytes(v);
    assert img[a..a + 4] == [img[a], img[a + 1], img[a + 2], img[a + 3]];
  }

  lemma NumberOfBytes(v: int)
    requires 0 <= v < 0x1_0000_0000
    ensures v == v % 256 + 0x100 * (v / 256 % 256) + 0x1_0000 * (v / 65536 % 256) + 0x100_0000 * (v / 16777216)
    ensures 0 <= v / 16777216 < 256
  {
    TwoBytesUp(v);
    ThreeBytesUp(v);
    Halves(v);
    Halves(v / 256);
    Halves(v / 256 / 256);
  }

  lemma Halves(w: int)
    ensures w == 256 * (w / 256) + w % 256
  {
  }

  lemma WordBytes(b0: int, b1: int, b2: int, b3: int)
    requires 0 <= b0 < 256 && 0 <= b1 < 256 && 0 <= b2 < 256 && 0 <= b3 < 256
    ensures var w := b0 + 0x100 * b1 + 0x1_0000 * b2 + 0x100_0000 * b3;
      w % 256 == b0 && w / 256 % 256 == b1 && w / 65536 % 256 == b2 && w / 16777216 == b3
  {
    var x := b2 + 256 * b3;
    var y := b1 + 256 * x;
    var w := b0 + 256 * y;
    LowByte(b0, y);
    LowByte(b1, x);
    LowByte(b2, b3);
    TwoBytesUp(w);
    TwoBytesUp(w / 256);
    ThreeBytesUp(w);
  }

  lemma LowByte(b: int, x: int)
    requires 0 <= b < 256
    ensures (b + 256 * x) % 256 == b && (b + 256 * x) / 256 == x
  {
  }

  lemma TwoBytesUp(w: int)
    ensures w / 65536 == w / 256 / 256
  {
  }

  lemma ThreeBytesUp(w: int)
    ensures w / 16777216 == w / 256 / 256 / 256
  {
  }

  // Where byte pos of file n is: the inode count is at 4; block 0 of the image
  // is the boot block, then come the inode blocks, then the data blocks; the
  // length is at the start of the inode block and the block list behind it.
  lemma FileInNumbers(img: seq<Byte>, n: int, pos: int)
    requires IsFile(img, n) && 0 <= pos < |Contents(img, n)|
    ensures 4096 * (n + 1) + 4 * (pos / 4096) + 8 <= |img| && |Contents(img, n)| == Word(img, 4096 * (n + 1))
    ensures var block := Word(img, 4096 * (n + 1) + 4 + 4 * (pos / 4096));
      var address := 4096 * (1 + Word(img, 4) + block) + pos % 4096;
      0 <= address < |img| && Contents(img, n)[pos] == img[address]
  {
    FileAddressInImage(img, n, pos);
    hide Word;
  }

  // Where read_data takes byte j of its answer from.
  lemma AnswerInNumbers(img: seq<Byte>, n: int, offset: int, length: int, j: int)
    requires Readable(img, n, offset, length) && Answered(img, n, offset, length).Bytes?
    requires 0 <= j < |Answered(img, n, offset, length).bytes|
    ensures var t := offset % 4096 + j;
      && 4096 * (n + 1) + 4 * (offset / 4096 + t / 4097) + 8 <= |img|
      && var block := Word(img, 4096 * (n + 1) + 4 + 4 * (offset / 4096 + t / 4097));
         var address := 4096 * (1 + Word(img, 4) + block) + t % 4097;
         0 <= address < |img| && Answered(img, n, offset, length).bytes[j] == img[address]
  {
    hide Word;
    StrideStaysInList(offset, j);
    ReadAddressInImage(img, n, offset, j);
  }

  // A request fails if and only if the inode does not exist, or there is
  // something to read and the first listed block does not exist.
  lemma FailsIff(img: seq<Byte>, n: int, offset: int, length: int)
    requires Readable(img, n, offset, length)
    ensures n < Word(img, 4) && offset < Word(img, 4096 * (n + 1)) ==> 4096 * (n + 1) + 4 + 4 * (offset / 4096) + 4 <= |img|
    ensures Answered(img, n, offset, length) == Failed <==>
      || n >= Word(img, 4)
      || (offset < Word(img, 4096 * (n + 1)) && Word(img, 4096 * (n + 1) + 4 + 4 * (offset / 4096)) >= Word(img, 8))
    ensures n < Word(img, 4) && offset >= Word(img, 4096 * (n + 1)) ==> Answered(img, n, offset, length) == Bytes([])
  {
    hide Word;
  }
}
