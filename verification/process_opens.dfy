// The open system call by name, and what the type word of an entry means.
module ProcessOpens {
  import opened Types
  import opened ProcessModel
  import opened ProcessTable
  import opened FileSystem
  import opened Strings
  import D = Directory

  // RTC_FILE, DIR_FILE and REGULAR_FILE.
  function KindOf(fileType: int): Kind {
    if fileType == 0 then Rtc else if fileType == 1 then Directory else Regular
  }

  // What open learns about a name.
  function FoundIn(img: seq<Byte>, fname: seq<Byte>): Option<Dentry>
    requires D.Listing(img)
  {
    match D.Lookup(img, fname, 0)
    case None => None
    case Some(i) => Some(Dentry(KindOf(D.EntryType(img, i)), D.EntryInode(img, i)))
  }

  // In numbers: entry i is the first one with the name, its type is the word
  // at 64 * (i + 1) + 32 and its inode number the word behind it.
  lemma FoundInNumbers(img: seq<Byte>, fname: seq<Byte>, i: int)
    requires D.Has(img, i) && D.Lookup(img, fname, 0) == Some(i)
    ensures var a := 64 * (i + 1) + 32;
      && a + 8 <= |img|
      && (img[a..a + 4] == [0, 0, 0, 0] ==> FoundIn(img, fname) == Some(Dentry(Rtc, 0)))
      && (img[a..a + 4] == [1, 0, 0, 0] ==> FoundIn(img, fname) == Some(Dentry(Directory, 0)))
      && (img[a..a + 4] == [2, 0, 0, 0] ==> FoundIn(img, fname) == Some(Dentry(Regular, Word(img, a + 4))))
  {
    D.EntryInNumbers(img, i);
    var a := 64 * (i + 1) + 32;
    WordOfBytes(img, a, 0);
    WordOfBytes(img, a, 1);
    WordOfBytes(img, a, 2);
    hide Word;
  }

  // open. The lookup changes nothing, so it comes first here. Types other than
  // 0, 1 and 2 are not part of this model.
  method OpenByName(k: Kernel, img: seq<Byte>, fname: seq<Byte>) returns (r: int)
    requires k.Valid() && k.abs.Active(k.abs.current)
    requires D.Listing(img) && NUL in fname && |Text(fname)| < 64
    requires var i := D.Lookup(img, fname, 0); i.Some? ==> D.EntryType(img, i.value) <= 2
    modifies k, k.blocks
    ensures k.Valid() && |old(k.abs).Top(old(k.abs).current).files| == PCB_FILE_NUMBER
    ensures var (files, result) := OpenFile(old(k.abs).Top(old(k.abs).current).files, FoundIn(img, fname));
      k.abs == WithFiles(old(k.abs), files) && r == result
  {
    hide Kernel.Valid, OpenFile, D.Listing, D.Lookup;
    ghost var owned := k.Repr() + {k.tables.pd, k.tables.pt};
    var dentry := new Byte[D.ENTRY](_ => NUL);
    assert dentry !in owned && owned == k.Repr() + {k.tables.pd, k.tables.pt};
    var found := D.ReadDentryByName(img, fname, dentry);
    if found == -1 {
      r := k.Open(None);
    } else {
      var fileType, inode := Word(dentry[..], D.NAME), Word(dentry[..], D.NAME + 4);
      r := k.Open(Some(Dentry(KindOf(fileType), inode)));
    }
  }
}
