// The C strings of lib.c: length, comparison, copy and reversal.
module Strings {
  import opened Types
  import opened MemoryCopy

  // The bytes before the first NUL, or all of them.
  function Text(s: seq<Byte>): (t: seq<Byte>)
    ensures t <= s && NUL !in t
    ensures |t| < |s| ==> s[|t|] == NUL
  {
    if s == [] || s[0] == NUL then [] else [s[0]] + Text(s[1..])
  }

  lemma {:induction false} TextEnds(s: seq<Byte>, k: nat)
    requires k <= |s| && NUL !in s[..k] && (k < |s| ==> s[k] == NUL)
    ensures Text(s) == s[..k]
  {
    if k > 0 {
      assert s[..k][0] == s[0] && s[..k][1..] == s[1..][..k - 1];
      TextEnds(s[1..], k - 1);
    }
  }

  lemma {:induction false} TextReaches(s: seq<Byte>, k: nat)
    requires k < |s| && NUL !in s[..k] && s[k] != NUL
    ensures k < |Text(s)|
  {
    if k > 0 {
      assert s[..k][0] == s[0] && s[..k][1..] == s[1..][..k - 1];
      TextReaches(s[1..], k - 1);
    }
  }

  function Cut(s: seq<Byte>, n: nat): (r: seq<Byte>) {
    if |s| <= n then s else s[..n]
  }

  lemma TextOfTerminated(s: seq<Byte>, rest: seq<Byte>)
    ensures Text(s + [NUL] + rest) == Text(s)
  {
    var k := |Text(s)|;
    var whole := s + [NUL] + rest;
    assert whole[..k] == s[..k] == Text(s);
    TextEnds(whole, k);
  }

  // A char of the compiler is signed.
  function Signed(b: Byte): int { if b < 128 then b else b - 256 }

  // Either the bytes compared are all there, or the string ends before.
  predicate Comparable(s: seq<Byte>, n: nat) { n <= |s| || NUL in s }

  // Where the two strings part, below n.
  ghost predicate PartAt(s1: seq<Byte>, s2: seq<Byte>, n: nat, k: nat) {
    k < n && k < |s1| && k < |s2| && s1[..k] == s2[..k] && NUL !in s1[..k] && s1[k] != s2[k]
  }

  method StrNCmp(s1: seq<Byte>, s2: seq<Byte>, n: nat) returns (r: int)
    requires Comparable(s1, n) && Comparable(s2, n)
    ensures r == 0 <==> Text(Cut(s1, n)) == Text(Cut(s2, n))
    ensures r != 0 ==> exists k: nat :: PartAt(s1, s2, n, k) && r == Signed(s1[k]) - Signed(s2[k])
    ensures r < 0 ==> exists k: nat :: PartAt(s1, s2, n, k) && if (s1[k] < 128) == (s2[k] < 128) then s1[k] < s2[k] else s1[k] >= 128
    ensures r > 0 ==> exists k: nat :: PartAt(s1, s2, n, k) && if (s1[k] < 128) == (s2[k] < 128) then s1[k] > s2[k] else s1[k] < 128
  {
    var i := 0;
    while i < n
      invariant i <= n && i <= |s1| && i <= |s2| && s1[..i] == s2[..i] && NUL !in s1[..i]
    {
      StillInside(s1, n, i);
      StillInside(s2, n, i);
      if s1[i] != s2[i] || s1[i] == NUL {
        if s1[i] == s2[i] { SameEnd(s1, s2, n, i); } else { Parted(s1, s2, n, i); }
        return Signed(s1[i]) - Signed(s2[i]);
      }
      i := i + 1;
    }
    assert Cut(s1, n) == s1[..n] == s2[..n] == Cut(s2, n);
    return 0;
  }

  lemma StillInside(s: seq<Byte>, n: nat, i: nat)
    requires Comparable(s, n) && i < n && i <= |s| && NUL !in s[..i]
    ensures i < |s|
  {
    assert s[..|s|] == s;
  }

  lemma SameEnd(s1: seq<Byte>, s2: seq<Byte>, n: nat, i: nat)
    requires i < n && i < |s1| && i < |s2| && s1[..i] == s2[..i] && NUL !in s1[..i] && s1[i] == s2[i] == NUL
    ensures Text(Cut(s1, n)) == Text(Cut(s2, n))
  {
    assert Cut(s1, n)[..i] == s1[..i] && Cut(s2, n)[..i] == s2[..i];
    TextEnds(Cut(s1, n), i);
    TextEnds(Cut(s2, n), i);
  }

  lemma Parted(s1: seq<Byte>, s2: seq<Byte>, n: nat, i: nat)
    requires PartAt(s1, s2, n, i)
    ensures Text(Cut(s1, n)) != Text(Cut(s2, n))
  {
    var c1, c2 := Cut(s1, n), Cut(s2, n);
    assert c1[..i] == s1[..i] && c2[..i] == s2[..i];
    if c1[i] == NUL { TextEnds(c1, i); } else { TextReaches(c1, i); }
    if c2[i] == NUL { TextEnds(c2, i); } else { TextReaches(c2, i); }
  }

  // The length of the string that starts at index at.
  method StrLen(s: array<Byte>, at: nat) returns (len: int)
    requires at <= s.Length && NUL in s[at..]
    ensures len == |Text(s[at..])|
  {
    len := 0;
    StillInside(s[at..], s.Length + 1, 0);
    while s[at + len] != NUL
      invariant 0 <= len < s.Length - at && NUL !in s[at..][..len]
      decreases s.Length - len
    {
      assert s[at..][..len + 1] == s[at..][..len] + [s[at + len]];
      len := len + 1;
      StillInside(s[at..], s.Length + 1, len);
    }
    TextEnds(s[at..], len);
  }

  method StrCpy(dest: array<Byte>, src: seq<Byte>)
    requires NUL in src && |Text(src)| < dest.Length
    modifies dest
    ensures dest[..] == Spliced(old(dest[..]), 0, Text(src) + [NUL])
  {
    ghost var t := Text(src);
    assert |t| < |src| && t == src[..|t|];
    hide Text;
    var i := 0;
    while src[i] != NUL
      invariant i <= |t|
      invariant forall k :: 0 <= k < i ==> dest[k] == t[k]
      invariant forall k :: i <= k < dest.Length ==> dest[k] == old(dest[k])
      decreases |t| - i
    {
      assert i < |t|;
      dest[i] := src[i];
      i := i + 1;
    }
    dest[i] := NUL;
  }

  function Reversed(s: seq<Byte>): (r: seq<Byte>)
    ensures |r| == |s|
  {
    seq(|s|, i requires 0 <= i < |s| => s[|s| - 1 - i])
  }

  // Reverses the string at index at in place.
  method StrRev(s: array<Byte>, at: nat)
    requires at <= s.Length && NUL in s[at..]
    modifies s
    ensures s[..] == Spliced(old(s[..]), at, Reversed(Text(old(s[at..]))))
  {
    var n := StrLen(s, at);
    ghost var t, before := Text(s[at..]), s[..];
    hide Text;
    assert t == before[at..at + n];
    SwapEnds(s, at, n);
    ReversedSplice(s[..], before, at, n);
  }

  lemma ReversedSplice(m: seq<Byte>, before: seq<Byte>, at: nat, n: nat)
    requires |m| == |before| && at + n <= |m|
    requires forall k :: 0 <= k < |m| ==> m[k] == before[if at <= k < at + n then at + n - 1 - (k - at) else k]
    ensures m == Spliced(before, at, Reversed(before[at..at + n]))
  {
    var r := Spliced(before, at, Reversed(before[at..at + n]));
    forall k | 0 <= k < |m| ensures m[k] == r[k] {
      SplicedAt(before, at, Reversed(before[at..at + n]), k);
    }
  }

  // The loop of strrev, over the n characters from index at on.
  method SwapEnds(s: array<Byte>, at: nat, n: nat)
    requires at + n <= s.Length
    modifies s
    ensures forall k :: 0 <= k < s.Length ==>
      s[k] == if at <= k < at + n then old(s[at + n - 1 - (k - at)]) else old(s[k])
  {
    var beg, end := 0, n - 1;
    while beg < end
      invariant 0 <= beg <= end + 2 && beg + end == n - 1
      invariant forall k :: 0 <= k < s.Length ==>
        s[k] == if at <= k < at + beg || at + end < k < at + n then old(s[at + n - 1 - (k - at)]) else old(s[k])
    {
      var tmp := s[at + end];
      s[at + end] := s[at + beg];
      s[at + beg] := tmp;
      beg, end := beg + 1, end - 1;
    }
  }

  // The signed meaning of a byte is its two's complement.
  lemma SignedIsTwosComplement(a: Byte, b: Byte)
    ensures -128 <= Signed(a) <= 127 && (Signed(a) - a) % 256 == 0
    ensures Signed(a) - Signed(b) < 0 <==> if (a < 128) == (b < 128) then a < b else a >= 128
    ensures Signed(a) - Signed(b) == 0 <==> a == b
  {
  }
}
