// The directory in the boot block: lookup by name and by index, and reading
// the names one after the other.
module Directory {
  import opened Types
  import opened MemoryCopy
  import opened Strings
  import opened FileSystem
  import opened ProcessTable

  const NAME := 32          // bytes of a name field
  const ENTRY := 64         // bytes of a directory entry, and of a dentry
  const MAX_ENTRIES := 63
  const REGULAR := 2

  // ----- Entries -----

  // The boot block holds a count of at most 63 entries and the entries.
  ghost predicate Listing(img: seq<Byte>) {
    |img| >= BLOCK && Word(img, 0) <= MAX_ENTRIES
  }

  function Count(img: seq<Byte>): (n: int)
    requires Listing(img)
    ensures 0 <= n <= MAX_ENTRIES
  {
    Word(img, 0)
  }

  function EntryAt(i: int): int { (i + 1) * ENTRY }

  ghost predicate Has(img: seq<Byte>, i: int) { Listing(img) && 0 <= i < Count(img) }

  function EntryName(img: seq<Byte>, i: int): (r: seq<Byte>)
    requires Has(img, i)
    ensures |r| == NAME
  {
    img[EntryAt(i)..EntryAt(i) + NAME]
  }

  function EntryType(img: seq<Byte>, i: int): int
    requires Has(img, i)
  {
    Word(img, EntryAt(i) + NAME)
  }

  // The inode number that a lookup reports: only regular files have one.
  function EntryInode(img: seq<Byte>, i: int): int
    requires Has(img, i)
  {
    if EntryType(img, i) == REGULAR then Word(img, EntryAt(i) + NAME + 4) else 0
  }

  // What a dentry says about entry i: the name up to its end, type and inode.
  ghost predicate Describes(dentry: seq<Byte>, img: seq<Byte>, i: int) {
    && Has(img, i) && |dentry| == ENTRY
    && Text(dentry[..NAME]) == Text(EntryName(img, i))
    && Word(dentry, NAME) == EntryType(img, i)
    && Word(dentry, NAME + 4) == EntryInode(img, i)
  }

  predicate Named(img: seq<Byte>, i: int, fname: seq<Byte>)
    requires Has(img, i)
  {
    Text(EntryName(img, i)) == Text(Cut(fname, NAME))
  }

  // The first entry from index i on with the name.
  function Lookup(img: seq<Byte>, fname: seq<Byte>, i: nat): (r: Option<int>)
    requires Listing(img) && i <= Count(img)
    ensures r.Some? ==> i <= r.value < Count(img) && Named(img, r.value, fname)
    ensures forall j :: i <= j < (if r.Some? then r.value else Count(img)) ==> !Named(img, j, fname)
    decreases Count(img) - i
  {
    if i == Count(img) then None
    else if Named(img, i, fname) then Some(i)
    else Lookup(img, fname, i + 1)
  }

  // ----- Filling a dentry -----

  // Type and inode number, as the two lookups store them.
  function Fields(img: seq<Byte>, i: int): (r: seq<Byte>)
    requires Has(img, i)
    ensures |r| == 8
  {
    var a := EntryAt(i) + NAME;
    img[a..a + 4] + if EntryType(img, i) == REGULAR then img[a + 4..a + 8] else [NUL, NUL, NUL, NUL]
  }

  method PutFields(img: seq<Byte>, i: int, dentry: array<Byte>)
    requires Has(img, i) && dentry.Length == ENTRY
    modifies dentry
    ensures dentry[..] == Spliced(old(dentry[..]), NAME, Fields(img, i))
  {
    var a := EntryAt(i) + NAME;
    PutWord(dentry, NAME, img[a..a + 4]);
    if Word(img, a) == REGULAR {
      PutWord(dentry, NAME + 4, img[a + 4..a + 8]);
    } else {
      PutWord(dentry, NAME + 4, [NUL, NUL, NUL, NUL]);
    }
  }

  method PutWord(m: array<Byte>, at: nat, word: seq<Byte>)
    requires |word| == 4 && at + 4 <= m.Length
    modifies m
    ensures m[..] == Spliced(old(m[..]), at, word)
  {
    m[at], m[at + 1], m[at + 2], m[at + 3] := word[0], word[1], word[2], word[3];
  }

  // ----- Lookup -----

  method ReadDentryByName(img: seq<Byte>, fname: seq<Byte>, dentry: array<Byte>) returns (r: int)
    requires Listing(img) && NUL in fname && |Text(fname)| < ENTRY == dentry.Length
    modifies dentry
    ensures match Lookup(img, fname, 0)
      case None => r == -1 && dentry[..] == old(dentry[..])
      case Some(i) => r == 0 && Describes(dentry[..], img, i)
  {
    hide Text, Spliced, Fields, Describes;
    var entryNumber := Word(img, 0);
    for i := 0 to entryNumber
      invariant dentry[..] == old(dentry[..])
      invariant Lookup(img, fname, 0) == Lookup(img, fname, i)
    {
      var a := EntryAt(i);
      var c := StrNCmp(img[a..a + NAME], fname, NAME);
      if c == 0 {
        // A query of more than 31 characters runs into the fields stored next.
        StrCpy(dentry, fname);
        PutFields(img, i, dentry);
        NamedDescribes(old(dentry[..]), img, fname, i);
        return 0;
      }
    }
    return -1;
  }

  lemma SplicedFields(m: seq<Byte>, img: seq<Byte>, i: int)
    requires Has(img, i) && |m| == ENTRY && Text(m[..NAME]) == Text(EntryName(img, i))
    ensures Describes(Spliced(m, NAME, Fields(img, i)), img, i)
  {
    var d := Spliced(m, NAME, Fields(img, i));
    assert d[..NAME] == m[..NAME];
    var a := EntryAt(i) + NAME;
    assert forall k :: 0 <= k < 8 ==> d[NAME + k] == Fields(img, i)[k];
    assert forall k :: 0 <= k < 4 ==> Fields(img, i)[k] == img[a + k];
  }

  lemma NamedDescribes(before: seq<Byte>, img: seq<Byte>, fname: seq<Byte>, i: int)
    requires Has(img, i) && Named(img, i, fname) && NUL in fname && |Text(fname)| < ENTRY == |before|
    ensures Describes(Spliced(Spliced(before, 0, Text(fname) + [NUL]), NAME, Fields(img, i)), img, i)
  {
    var m := Spliced(before, 0, Text(fname) + [NUL]);
    NameAsStored(before, fname);
    SplicedFields(m, img, i);
  }

  // The name field holds the query up to its end, or its first 32 characters.
  lemma NameAsStored(before: seq<Byte>, fname: seq<Byte>)
    requires NUL in fname && |Text(fname)| < ENTRY == |before|
    ensures Text(Spliced(before, 0, Text(fname) + [NUL])[..NAME]) == Text(Cut(fname, NAME))
  {
    var t := Text(fname);
    var m := Spliced(before, 0, t + [NUL]);
    var k := if |t| < NAME then |t| else NAME;
    assert m[..NAME][..k] == t[..k] == fname[..k] == Cut(fname, NAME)[..k];
    if |t| < NAME { assert m[..NAME][k] == NUL; }
    TextEnds(m[..NAME], k);
    TextEnds(Cut(fname, NAME), k);
  }

  // base is the address of the dentry.
  method ReadDentryByIndex(img: seq<Byte>, index: int, dentry: array<Byte>, base: nat) returns (r: int)
    requires Listing(img) && 0 <= index < U32 && dentry.Length == ENTRY
    modifies dentry
    ensures if index < Count(img)
      then r == 0 && Describes(dentry[..], img, index) && dentry[..NAME] == EntryName(img, index)
      else r == -1 && dentry[..] == old(dentry[..])
  {
    var entryNumber := Word(img, 0);
    if index >= entryNumber { return -1; }
    var a := EntryAt(index);
    var fname := new Byte[NAME](k requires 0 <= k < NAME => img[a + k]);
    assert fname[..][0..0 + NAME] == EntryName(img, index);
    MemCpy(dentry, 0, fname, 0, NAME, base);
    assert dentry[..][..NAME] == EntryName(img, index);
    SplicedFields(dentry[..], img, index);
    PutFields(img, index, dentry);
    assert dentry[..NAME] == dentry[..][..NAME];
    return 0;
  }

  // loader. The name must be there, and its entry must lead to a file: the
  // code does not look at the result of the lookup.
  method Loader(img: seq<Byte>, name: seq<Byte>, dest: array<Byte>, base: nat)
    requires Listing(img) && NUL in name && |Text(name)| < ENTRY && Lookup(img, name, 0).Some?
    requires var n := EntryInode(img, Lookup(img, name, 0).value); IsFile(img, n) && FileLength(img, n) <= dest.Length
    modifies dest
    ensures var n := EntryInode(img, Lookup(img, name, 0).value);
      dest[..] == Contents(img, n) + old(dest[..])[FileLength(img, n)..]
  {
    hide IsFile, Contents;
    var newDentry := new Byte[ENTRY](_ => NUL);
    var _ := ReadDentryByName(img, name, newDentry);
    LoadFile(img, Word(newDentry[..], NAME + 4), dest, base);
  }

  // ----- Lookup by name and by index agree -----

  // Two entries that a lookup cannot tell apart.
  ghost predicate SameName(img: seq<Byte>, i: int, j: int)
    requires Has(img, i) && Has(img, j)
  {
    Text(EntryName(img, i)) == Text(EntryName(img, j))
  }

  // Asking for the name of entry i finds entry i, unless an earlier entry has
  // the same name.
  lemma LookupFindsEntry(img: seq<Byte>, i: int)
    requires Has(img, i)
    ensures Lookup(img, EntryName(img, i) + [NUL], 0) == Some(i)
      <==> forall j :: 0 <= j < i ==> !SameName(img, j, i)
  {
    var fname := EntryName(img, i) + [NUL];
    assert Cut(fname, NAME) == EntryName(img, i);
    var found := Lookup(img, fname, 0);
    assert Named(img, i, fname);
    assert forall j :: 0 <= j < Count(img) ==> Named(img, j, fname) == SameName(img, j, i);
  }

  // Every entry can be found by its own name if and only if the names differ.
  lemma AllFoundIffDistinct(img: seq<Byte>)
    requires Listing(img)
    ensures (forall i :: 0 <= i < Count(img) ==> Lookup(img, EntryName(img, i) + [NUL], 0) == Some(i))
      <==> forall i, j :: 0 <= i < j < Count(img) ==> !SameName(img, i, j)
  {
    forall i | 0 <= i < Count(img)
      ensures Lookup(img, EntryName(img, i) + [NUL], 0) == Some(i) <==> forall j :: 0 <= j < i ==> !SameName(img, j, i)
    {
      LookupFindsEntry(img, i);
    }
  }

  // A lookup looks at 32 characters only.
  lemma LongNamesAreCut(img: seq<Byte>, f: seq<Byte>, g: seq<Byte>, i: nat)
    requires Listing(img) && i <= Count(img) && Text(Cut(f, NAME)) == Text(Cut(g, NAME))
    ensures Lookup(img, f, i) == Lookup(img, g, i)
    decreases Count(img) - i
  {
    if i < Count(img) { LongNamesAreCut(img, f, g, i + 1); }
  }

  // ----- Reading the directory -----

  // What a read at a position delivers, and where it leaves the position.
  function NameRead(img: seq<Byte>, pos: nat): seq<Byte>
    requires Listing(img)
  {
    if pos < Count(img) then Text(EntryName(img, pos)) else []
  }

  function After(img: seq<Byte>, pos: nat): nat
    requires Listing(img)
  {
    if pos < Count(img) then pos + 1 else pos
  }

  // buf takes 33 bytes, whatever size the caller asks for. base is the
  // address of buf.
  method DirectoryRead(img: seq<Byte>, file: array<FileDesc>, fd: int, buf: array<Byte>, base: nat) returns (r: int)
    requires Listing(img) && 0 <= fd < file.Length && NAME < buf.Length
    modifies file, buf
    ensures var pos := old(file[fd].filePos);
      && r == |NameRead(img, pos)|
      && file[..] == old(file[..])[fd := old(file[fd]).(filePos := After(img, pos))]
      && buf[..] == (if pos < Count(img) then Spliced(old(buf[..]), 0, EntryName(img, pos) + [NUL]) else old(buf[..]))
      && (pos < Count(img) ==> NUL in buf[..] && Text(buf[..]) == NameRead(img, pos))
  {
    CountByte(img);
    assert |img| >= BLOCK;
    hide Text, Word, Count, Listing, EntryName, Spliced;
    var current := file[fd].filePos;
    var retVal := 0;
    var totalEntries := img[0] as int;
    if current == totalEntries { return 0; }
    if current < totalEntries {
      FillName(img, current, buf, base);
      file[fd] := file[fd].(filePos := file[fd].filePos + 1);
      assert buf[0..] == buf[..];
      retVal := StrLen(buf, 0);
    }
    return retVal;
  }

  // The name field of an entry, closed by a NUL, at the start of the buffer.
  method FillName(img: seq<Byte>, i: int, buf: array<Byte>, base: nat)
    requires Has(img, i) && NAME < buf.Length
    modifies buf
    ensures buf[..] == Spliced(old(buf[..]), 0, EntryName(img, i) + [NUL])
    ensures NUL in buf[..] && Text(buf[..]) == Text(EntryName(img, i))
  {
    CountBelow32(img, i);
    hide Text, Word, Count, Listing, EntryName, Spliced;
    ghost var name := EntryName(img, i);
    NameAndNul(buf[..], name);
    PutNul(buf[..], name);
    var dentry := new Byte[ENTRY](_ => NUL);
    var _ := ReadDentryByIndex(img, i, dentry, 0);
    MemCpy(buf, 0, dentry, 0, NAME, base);
    assert dentry[..][0..0 + NAME] == name;
    ghost var copied := buf[..];
    buf[NAME] := NUL;
    assert buf[..] == copied[NAME := NUL];
  }

  lemma PutNul(before: seq<Byte>, name: seq<Byte>)
    requires |name| < |before|
    ensures |Spliced(before, 0, name)| == |before|
    ensures Spliced(before, 0, name)[|name| := NUL] == Spliced(before, 0, name + [NUL])
  {
    SplicedFront(before, name);
    SplicedFront(before, name + [NUL]);
  }

  lemma CountBelow32(img: seq<Byte>, i: int)
    requires Has(img, i)
    ensures 0 <= i < U32
  {
  }

  lemma NameAndNul(before: seq<Byte>, name: seq<Byte>)
    requires |name| < |before|
    ensures var m := Spliced(before, 0, name + [NUL]); NUL in m && Text(m) == Text(name)
  {
    hide Text, Spliced;
    SplicedFront(before, name + [NUL]);
    var rest := before[|name + [NUL]|..];
    TextOfTerminated(name, rest);
    HasNul(name, rest);
  }

  lemma HasNul(name: seq<Byte>, rest: seq<Byte>)
    ensures NUL in name + [NUL] + rest
  {
    assert (name + [NUL] + rest)[|name|] == NUL;
  }

  lemma SplicedFront(before: seq<Byte>, bytes: seq<Byte>)
    requires |bytes| <= |before|
    ensures Spliced(before, 0, bytes) == bytes + before[|bytes|..]
  {
  }

  // The count is read as one byte here and as a word elsewhere.
  lemma CountByte(img: seq<Byte>)
    requires Listing(img)
    ensures img[0] as int == Count(img)
  {
  }

  // The position after k reads on a fresh descriptor, and what they deliver.
  function Position(img: seq<Byte>, k: nat): nat
    requires Listing(img)
  {
    if k == 0 then 0 else After(img, Position(img, k - 1))
  }

  function Reads(img: seq<Byte>, k: nat): (r: seq<seq<Byte>>)
    requires Listing(img)
  {
    if k == 0 then [] else Reads(img, k - 1) + [NameRead(img, Position(img, k - 1))]
  }

  // The reads deliver every name once, in the order of the entries, and then
  // nothing forever.
  lemma {:induction false} ReadsEnumerate(img: seq<Byte>, k: nat)
    requires Listing(img)
    ensures |Reads(img, k)| == k
    ensures forall i :: 0 <= i < k ==> Reads(img, k)[i] == NameRead(img, i)
    ensures Position(img, k) == if k < Count(img) then k else Count(img)
  {
    hide *;
    if k == 0 {
      NothingRead(img);
    } else {
      ReadsEnumerate(img, k - 1);
      AppendRead(img, k - 1);
    }
  }

  lemma NothingRead(img: seq<Byte>)
    requires Listing(img)
    ensures Reads(img, 0) == [] && Position(img, 0) == 0
  {
  }

  lemma AppendRead(img: seq<Byte>, k: nat)
    requires Listing(img) && Position(img, k) == if k < Count(img) then k else Count(img)
    ensures Reads(img, k + 1) == Reads(img, k) + [NameRead(img, k)]
    ensures Position(img, k + 1) == if k + 1 < Count(img) then k + 1 else Count(img)
  {
    hide Word, Text, EntryName;
  }

  // A caller that stops at the first 0 has seen all names if and only if no
  // name is empty.
  lemma ZeroMeansEnd(img: seq<Byte>)
    requires Listing(img)
    ensures (forall k: nat :: |Reads(img, k)| == k && (k > 0 ==> (|Reads(img, k)[k - 1]| == 0 <==> k > Count(img))))
      <==> forall i :: 0 <= i < Count(img) ==> EntryName(img, i)[0] != NUL
  {
    forall k: nat | true ensures |Reads(img, k)| == k {
      ReadsEnumerate(img, k);
    }
    forall k: nat | k > 0
      ensures |Reads(img, k)[k - 1]| == 0 <==> (k <= Count(img) ==> EntryName(img, k - 1)[0] == NUL)
    {
      ReadsEnumerate(img, k);
    }
    if i :| 0 <= i < Count(img) && EntryName(img, i)[0] == NUL {
      assert |Reads(img, i + 1)[i]| == 0;
    }
  }

  // ----- The format of an entry, in numbers -----

  // The count is the first word of the image; entry i is at 64 * (i + 1), its
  // name in the first 32 bytes.
  lemma EntryInNumbers(img: seq<Byte>, i: int)
    requires Has(img, i)
    ensures Count(img) == Word(img, 0) <= 63 && 64 * (i + 1) + 64 <= |img|
    ensures EntryName(img, i) == img[64 * (i + 1)..64 * (i + 1) + 32]
  {
  }

  // What a lookup stores behind the name: the type as it stands in the entry,
  // and the inode number of the entry if the type is 2, else 0.
  lemma DescribedInNumbers(dentry: seq<Byte>, img: seq<Byte>, i: int)
    requires Describes(dentry, img, i)
    ensures var a := 64 * (i + 1) + 32;
      && a + 8 <= |img| && |dentry| == 64
      && dentry[32..36] == img[a..a + 4]
      && dentry[36..40] == if img[a..a + 4] == [2, 0, 0, 0] then img[a + 4..a + 8] else [0, 0, 0, 0]
  {
    var a := 64 * (i + 1) + 32;
    EntryInNumbers(img, i);
    SameNumber(dentry, 32, img, a);
    WordOfBytes(img, a, 2);
    if EntryType(img, i) == REGULAR { SameNumber(dentry, 36, img, a + 4); } else { WordOfBytes(dentry, 36, 0); }
  }

  lemma SameNumber(m: seq<Byte>, a: int, img: seq<Byte>, b: int)
    requires 0 <= a && a + 4 <= |m| && 0 <= b && b + 4 <= |img|
    ensures Word(m, a) == Word(img, b) <==> m[a..a + 4] == img[b..b + 4]
  {
    var v := Word(m, a);
    hide Word;
    WordOfBytes(m, a, v);
    WordOfBytes(img, b, v);
  }

  // A query names an entry if the name field and the first 32 characters of
  // the query are the same text.
  lemma NamedInNumbers(img: seq<Byte>, i: int, fname: seq<Byte>)
    requires Has(img, i)
    ensures 64 * (i + 1) + 32 <= |img|
    ensures Named(img, i, fname) <==>
      Text(img[64 * (i + 1)..64 * (i + 1) + 32]) == Text(if |fname| <= 32 then fname else fname[..32])
  {
    hide Text, Word, EntryName, Count, Listing;
    EntryInNumbers(img, i);
  }
}
