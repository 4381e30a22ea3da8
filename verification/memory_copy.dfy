// memcpy and memmove of lib.c over regions of byte memory.
module MemoryCopy {
  import opened Types

  // A region with n bytes replaced from index at on.
  function Spliced(m: seq<Byte>, at: nat, bytes: seq<Byte>): (r: seq<Byte>)
    requires at + |bytes| <= |m|
    ensures |r| == |m|
  {
    m[..at] + bytes + m[at + |bytes|..]
  }

  // What a copy that has done its first i bytes has reached.
  ghost predicate CopiedUpTo(now: seq<Byte>, before: seq<Byte>, dst: nat, bytes: seq<Byte>, i: nat) {
    CopiedBetween(now, before, dst, bytes, 0, i)
  }

  // The bytes with indices from..to have arrived; nothing else has changed.
  ghost predicate CopiedBetween(now: seq<Byte>, before: seq<Byte>, dst: nat, bytes: seq<Byte>, from: nat, to: nat) {
    && dst + |bytes| <= |before| == |now|
    && from <= to <= |bytes|
    && (forall k :: from <= k < to ==> now[dst + k] == bytes[k])
    && (forall k :: 0 <= k < |now| && !(dst + from <= k < dst + to) ==> now[k] == before[k])
  }

  lemma CopiedIsSpliced(now: seq<Byte>, before: seq<Byte>, dst: nat, bytes: seq<Byte>)
    requires CopiedUpTo(now, before, dst, bytes, |bytes|)
    ensures now == Spliced(before, dst, bytes)
  {
    forall k | 0 <= k < |now| ensures now[k] == Spliced(before, dst, bytes)[k] {
      if dst <= k < dst + |bytes| { assert now[dst + (k - dst)] == bytes[k - dst]; }
    }
  }

  // The state of a forward copy after i bytes: they have arrived, and the
  // bytes still to be read have not been overwritten.
  ghost predicate Copying(dest: array<Byte>, before: seq<Byte>, dst: nat, source: array<Byte>, src: nat, bytes: seq<Byte>, i: nat)
    reads dest, source
  {
    && CopiedUpTo(dest[..], before, dst, bytes, i)
    && src + |bytes| <= source.Length
    && (dest != source || dst <= src || src + |bytes| <= dst)
    && forall k :: i <= k < |bytes| ==> source[src + k] == bytes[k]
  }

  // movb through al.
  method CopyByte(dest: array<Byte>, dst: nat, source: array<Byte>, src: nat, i: nat, ghost before: seq<Byte>, ghost bytes: seq<Byte>)
    requires Copying(dest, before, dst, source, src, bytes, i) && i < |bytes|
    modifies dest
    ensures Copying(dest, before, dst, source, src, bytes, i + 1)
  {
    dest[dst + i] := source[src + i];
  }

  // movsl: four bytes are read before any is written.
  method CopyWord(dest: array<Byte>, dst: nat, source: array<Byte>, src: nat, i: nat, ghost before: seq<Byte>, ghost bytes: seq<Byte>)
    requires Copying(dest, before, dst, source, src, bytes, i) && i + 4 <= |bytes|
    modifies dest
    ensures Copying(dest, before, dst, source, src, bytes, i + 4)
  {
    var b0, b1, b2, b3 := source[src + i], source[src + i + 1], source[src + i + 2], source[src + i + 3];
    dest[dst + i], dest[dst + i + 1], dest[dst + i + 2], dest[dst + i + 3] := b0, b1, b2, b3;
  }

  // base is the address of dest[0]. The copy goes byte by byte up to a word
  // boundary of the destination, then word by word, then byte by byte. The
  // regions are separate, or they share memory and the destination does not
  // start inside the source.
  method MemCpy(dest: array<Byte>, dst: nat, source: array<Byte>, src: nat, n: nat, base: nat)
    requires dst + n <= dest.Length && src + n <= source.Length
    requires dest != source || dst <= src || src + n <= dst
    modifies dest
    ensures dest[..] == Spliced(old(dest[..]), dst, old(source[..])[src..src + n])
  {
    ghost var before, bytes := dest[..], source[src..src + n];
    assert bytes == old(source[..])[src..src + n];
    var ecx: nat, i: nat := n, 0;
    while ecx != 0 && (base + dst + i) % 4 != 0
      invariant i + ecx == n && Copying(dest, before, dst, source, src, bytes, i)
      decreases ecx
    {
      CopyByte(dest, dst, source, src, i, before, bytes);
      i, ecx := i + 1, ecx - 1;
    }
    if ecx != 0 {
      var edx: nat := ecx % 4;
      ecx := ecx / 4;
      while ecx != 0
        invariant i + 4 * ecx + edx == n && Copying(dest, before, dst, source, src, bytes, i)
        decreases ecx
      {
        CopyWord(dest, dst, source, src, i, before, bytes);
        i, ecx := i + 4, ecx - 1;
      }
      while edx != 0
        invariant i + edx == n && Copying(dest, before, dst, source, src, bytes, i)
        decreases edx
      {
        CopyByte(dest, dst, source, src, i, before, bytes);
        i, edx := i + 1, edx - 1;
      }
    }
    CopiedIsSpliced(dest[..], before, dst, bytes);
  }

  // The direction of the copy makes any overlap harmless.
  method MemMove(m: array<Byte>, dst: nat, src: nat, n: nat)
    requires dst + n <= m.Length && src + n <= m.Length
    modifies m
    ensures m[..] == Spliced(old(m[..]), dst, old(m[..])[src..src + n])
  {
    ghost var before, bytes := m[..], m[src..src + n];
    if src >= dst {
      var i: nat := 0;
      while i < n
        invariant CopiedUpTo(m[..], before, dst, bytes, i)
      {
        assert m[src + i] == bytes[i];
        m[dst + i] := m[src + i];
        i := i + 1;
      }
    } else {
      var i: nat := n;
      while i > 0
        invariant CopiedBetween(m[..], before, dst, bytes, i, n)
      {
        assert m[src + (i - 1)] == bytes[i - 1];
        i := i - 1;
        m[dst + i] := m[src + i];
      }
    }
    CopiedIsSpliced(m[..], before, dst, bytes);
  }

  // A splice, byte by byte.
  lemma SplicedAt(m: seq<Byte>, at: nat, bytes: seq<Byte>, k: nat)
    requires at + |bytes| <= |m| && k < |m|
    ensures Spliced(m, at, bytes)[k] == if at <= k < at + |bytes| then bytes[k - at] else m[k]
  {
  }
}
