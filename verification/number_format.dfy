// Numbers as text: itoa, and the conversions of printf that use it.
module NumberFormat {
  import opened Types
  import opened MemoryCopy
  import opened Strings

  const ZERO: Byte := 48
  const MINUS: Byte := 45

  ghost predicate Radix(r: int) { 2 <= r <= 36 }

  // ----- Digits and numerals -----

  // The lookup table of itoa: 0 to 9, then A to Z.
  function Digit(d: int): Byte
    requires 0 <= d < 36
  {
    if d < 10 then 48 + d else 55 + d
  }

  predicate IsDigit(c: Byte, r: int) { (48 <= c < 58 && c < 48 + r) || 65 <= c < 55 + r }

  function DigitValue(c: Byte): int { if c < 58 then c - 48 else c - 55 }

  ghost predicate Digits(s: seq<Byte>, r: int) { forall i :: 0 <= i < |s| ==> IsDigit(s[i], r) }

  // What a string of digits denotes.
  function Value(s: seq<Byte>, r: int): (v: int) {
    if s == [] then 0 else Value(s[..|s| - 1], r) * r + DigitValue(s[|s| - 1])
  }

  // Digits without a leading zero, unless the zero is all there is.
  ghost predicate Canonical(s: seq<Byte>, r: int) {
    s != [] && Digits(s, r) && (s[0] == ZERO ==> |s| == 1)
  }

  // The text that itoa leaves.
  function Numeral(v: nat, r: int): (s: seq<Byte>)
    requires Radix(r)
  {
    if v < r then [Digit(v)] else Quotient(v, r); Numeral(v / r, r) + [Digit(v % r)]
  }

  lemma Quotient(v: nat, r: int)
    requires Radix(r)
    ensures 0 <= v / r <= v && v == v / r * r + v % r && 0 <= v % r < r
    ensures v >= r ==> 0 < v / r < v
  {
  }

  lemma DigitIsValid(d: int, r: int)
    requires Radix(r) && 0 <= d < r
    ensures IsDigit(Digit(d), r) && DigitValue(Digit(d)) == d
    ensures Digit(d) == ZERO <==> d == 0
  {
  }

  lemma DigitOfValue(c: Byte, r: int)
    requires Radix(r) && IsDigit(c, r)
    ensures 0 <= DigitValue(c) < r && Digit(DigitValue(c)) == c && c != NUL
    ensures DigitValue(c) == 0 <==> c == ZERO
  {
  }

  lemma {:induction false} NumeralIsCanonical(v: nat, r: int)
    requires Radix(r)
    ensures Canonical(Numeral(v, r), r)
    ensures Numeral(v, r)[0] == ZERO <==> v == 0
  {
    Quotient(v, r);
    DigitIsValid(v % r, r);
    if v >= r { NumeralIsCanonical(v / r, r); }
  }

  lemma {:induction false} ValueOfNumeral(v: nat, r: int)
    requires Radix(r)
    ensures Value(Numeral(v, r), r) == v
  {
    Quotient(v, r);
    DigitIsValid(v % r, r);
    if v >= r {
      ValueOfNumeral(v / r, r);
      assert Numeral(v, r)[..|Numeral(v, r)| - 1] == Numeral(v / r, r);
    }
  }

  lemma {:induction false} NumeralOfValue(s: seq<Byte>, r: int)
    requires Radix(r) && Canonical(s, r)
    ensures Value(s, r) >= 0 && Numeral(Value(s, r), r) == s
    ensures Value(s, r) == 0 <==> s[0] == ZERO
  {
    var m := |s| - 1;
    DigitOfValue(s[m], r);
    assert s == s[..m] + [s[m]];
    if m > 0 {
      NumeralOfValue(s[..m], r);
      var p, d := Value(s[..m], r), DigitValue(s[m]);
      AtLeastRadix(p, d, r);
    }
  }

  lemma AtLeastRadix(p: int, d: int, r: int)
    requires Radix(r) && p >= 1 && 0 <= d < r
    ensures p * r + d >= r && (p * r + d) / r == p && (p * r + d) % r == d
  {
    var x := p * r + d;
    Quotient(x, r);
    OnlyZero(x / r - p, r, d - x % r);
    Products(p, 1, r, r);
  }

  lemma OnlyZero(k: int, r: int, x: int)
    requires r > 0 && -r < x < r
    ensures k * r == x ==> k == 0
  {
    if k >= 1 { Products(k, 1, r, r); }
    if k <= -1 { Products(-k, 1, r, r); }
  }

  // The text of a number is the one string of digits without a leading zero
  // that denotes it.
  lemma NumeralIff(s: seq<Byte>, v: nat, r: int)
    requires Radix(r)
    ensures s == Numeral(v, r) <==> Canonical(s, r) && Value(s, r) == v
  {
    NumeralIsCanonical(v, r);
    ValueOfNumeral(v, r);
    if Canonical(s, r) { NumeralOfValue(s, r); }
  }

  function Power(b: nat, k: nat): nat { if k == 0 then 1 else b * Power(b, k - 1) }

  lemma {:induction false} NumeralLength(v: nat, r: int, b: nat, k: nat)
    requires Radix(r) && 2 <= b <= r && 1 <= k && v < Power(b, k)
    ensures 1 <= |Numeral(v, r)| <= k
  {
    Quotient(v, r);
    if v >= r {
      Shorten(v, r, b, Power(b, k - 1));
      NumeralLength(v / r, r, b, k - 1);
    }
  }

  lemma Shorten(v: nat, r: int, b: nat, p: nat)
    requires Radix(r) && 2 <= b <= r <= v < b * p
    ensures v / r < p && p > 1
  {
    Quotient(v, r);
    if v / r >= p {
      Products(v / r, p, r, b);
    }
  }

  lemma Products(q: nat, p: nat, r: nat, b: nat)
    requires q >= p && r >= b
    ensures q * r >= p * b
  {
    assert q * r >= p * r >= p * b;
  }

  lemma {:induction false} PowerOfSum(b: nat, j: nat, k: nat)
    ensures Power(b, j + k) == Power(b, j) * Power(b, k)
  {
    if j > 0 {
      PowerOfSum(b, j - 1, k);
      Regroup(b, Power(b, j - 1), Power(b, k));
    }
  }

  lemma Regroup(x: nat, y: nat, z: nat)
    ensures x * (y * z) == (x * y) * z
  {
  }

  lemma Powers()
    ensures Power(2, 32) == U32 == Power(16, 8) && Power(10, 10) > U32
  {
    PowerOfSum(2, 16, 16);
    PowerOfSum(2, 8, 8);
    assert Power(2, 8) == 0x100;
    PowerOfSum(10, 5, 5);
    assert Power(10, 5) == 100000;
  }

  // Any 32-bit number fits 32 digits, 10 in decimal and 8 in hexadecimal.
  lemma NumeralFits(v: nat, r: int)
    requires Radix(r) && v < U32
    ensures 1 <= |Numeral(v, r)| <= 32
    ensures r == 10 ==> |Numeral(v, r)| <= 10
    ensures r == 16 ==> |Numeral(v, r)| <= 8
  {
    hide Power, Numeral;
    Powers();
    NumeralLength(v, r, 2, 32);
    if r == 10 { NumeralLength(v, r, 10, 10); }
    if r == 16 { NumeralLength(v, r, 16, 8); }
  }

  // ----- itoa -----

  // One division takes the last digit away.
  lemma LastDigit(v: nat, r: int)
    requires Radix(r)
    ensures var s := Numeral(v, r);
      && |s| >= 1 && s[|s| - 1] == Digit(v % r)
      && (if v >= r then Numeral(v / r, r) == s[..|s| - 1] && 0 < v / r < v else |s| == 1 && v / r == 0)
  {
    Quotient(v, r);
    NumeralSteps(v, r);
    hide Numeral, Digit;
  }

  lemma NumeralSteps(v: nat, r: int)
    requires Radix(r)
    ensures if v >= r then v / r >= 0 && 0 <= v % r < r && Numeral(v, r) == Numeral(v / r, r) + [Digit(v % r)]
      else v / r == 0 && v % r == v && Numeral(v, r) == [Digit(v)]
  {
    Quotient(v, r);
    hide Digit;
    if v < r { OnlyZero(v / r, r, v - v % r); }
  }

  method Itoa(value: int, buf: array<Byte>, at: nat, radix: int)
    requires 0 <= value < U32 && Radix(radix) && at + |Numeral(value, radix)| < buf.Length
    modifies buf
    ensures buf[..] == Spliced(old(buf[..]), at, Numeral(value, radix) + [NUL])
    ensures NUL in buf[at..] && Text(buf[at..]) == Numeral(value, radix)
  {
    ghost var num, before := Numeral(value, radix), buf[..];
    NumeralHasNoNul(value, radix);
    ReversedText(before, at, num);
    StoredText(before, at, num);
    if value == 0 {
      buf[at], buf[at + 1] := ZERO, NUL;
      assert num == [ZERO];
      assert buf[..] == Spliced(before, at, num + [NUL]);
      assert buf[at..] == buf[..][at..];
      return;
    }
    hide Numeral, Text, Reversed;
    var i := PutDigits(value, buf, at, radix);
    Terminate(buf, at, i, before, Reversed(num));
    hide Spliced;
    StrRev(buf, at);
    assert buf[at..] == buf[..][at..];
  }

  method Terminate(buf: array<Byte>, at: nat, i: int, ghost before: seq<Byte>, ghost text: seq<Byte>)
    requires i == |text| && at + i < |before| && buf[..] == Spliced(before, at, text)
    modifies buf
    ensures buf[..] == Spliced(before, at, text + [NUL]) && buf[at..] == buf[..][at..]
  {
    buf[at + i] := NUL;
  }

  // The digits, last one first.
  method PutDigits(value: int, buf: array<Byte>, at: nat, radix: int) returns (i: int)
    requires 0 < value && Radix(radix) && at + |Numeral(value, radix)| < buf.Length
    modifies buf
    ensures i == |Numeral(value, radix)|
    ensures buf[..] == Spliced(old(buf[..]), at, Reversed(Numeral(value, radix)))
  {
    ghost var num, before := Numeral(value, radix), buf[..];
    var newval := value;
    i := 0;
    hide Numeral;
    while newval > 0
      invariant 0 <= newval && 0 <= i <= |num|
      invariant if newval > 0 then Numeral(newval, radix) == num[..|num| - i] else i == |num|
      invariant forall k :: at <= k < at + i ==> buf[k] == Reversed(num)[k - at]
      invariant forall k :: 0 <= k < at || at + i <= k < buf.Length ==> buf[k] == before[k]
      decreases newval
    {
      LastDigit(newval, radix);
      buf[at + i] := Digit(newval % radix);
      newval, i := newval / radix, i + 1;
    }
  }

  // The string in the buffer before the reversal, and after it.
  lemma ReversedText(before: seq<Byte>, at: nat, num: seq<Byte>)
    requires NUL !in num && at + |num| < |before|
    ensures var m := Spliced(before, at, Reversed(num) + [NUL]);
      && NUL in m[at..] && Text(m[at..]) == Reversed(num)
      && Spliced(m, at, Reversed(Reversed(num))) == Spliced(before, at, num + [NUL])
  {
    assert NUL !in Reversed(num);
    hide Text;
    StoredText(before, at, Reversed(num));
    assert Reversed(Reversed(num)) == num;
    Respliced(before, at, Reversed(num), num);
  }

  lemma Respliced(before: seq<Byte>, at: nat, s: seq<Byte>, t: seq<Byte>)
    requires |s| == |t| && at + |s| < |before|
    ensures Spliced(Spliced(before, at, s + [NUL]), at, t) == Spliced(before, at, t + [NUL])
  {
  }

  lemma StoredText(before: seq<Byte>, at: nat, text: seq<Byte>)
    requires NUL !in text && at + |text| < |before|
    ensures var m := Spliced(before, at, text + [NUL]);
      NUL in m[at..] && Text(m[at..]) == text
  {
    var m := Spliced(before, at, text + [NUL]);
    hide Text;
    assert m[at..][|text|] == NUL;
    assert m[at..][..|text|] == text;
    TextEnds(m[at..], |text|);
  }

  lemma NoNulInDigits(s: seq<Byte>, r: int)
    requires Digits(s, r)
    ensures NUL !in s
  {
  }

  // ----- printf -----

  // puts: what is sent to putc, in order.
  method Puts(s: array<Byte>, at: nat) returns (out: seq<Byte>)
    requires at <= s.Length && NUL in s[at..]
    ensures out == Text(s[at..])
  {
    out := [];
    StillInside(s[at..], s.Length + 1, 0);
    while s[at + |out|] != NUL
      invariant |out| < s.Length - at && out == s[at..][..|out|] && NUL !in out
      decreases s.Length - |out|
    {
      out := out + [s[at + |out|]];
      StillInside(s[at..], s.Length + 1, |out|);
    }
    TextEnds(s[at..], |out|);
  }

  // %u, and %x without #.
  method PrintNumber(value: int, convBuf: array<Byte>, radix: int) returns (out: seq<Byte>)
    requires 0 <= value < U32 && radix in {10, 16} && convBuf.Length >= 36
    modifies convBuf
    ensures out == Numeral(value, radix)
  {
    NumeralFits(value, radix);
    Itoa(value, convBuf, 0, radix);
    out := Puts(convBuf, 0);
  }

  lemma NumeralHasNoNul(v: nat, r: int)
    requires Radix(r)
    ensures NUL !in Numeral(v, r)
  {
    NumeralIsCanonical(v, r);
    NoNulInDigits(Numeral(v, r), r);
  }

  // A sign and a magnitude, read back.
  function SignedValue(s: seq<Byte>): int {
    if s != [] && s[0] == MINUS then -Value(s[1..], 10) else Value(s, 10)
  }

  // %d. The negation wraps for the smallest number, and its magnitude is
  // printed all the same.
  method PrintSigned(value: int, convBuf: array<Byte>) returns (out: seq<Byte>)
    requires -0x8000_0000 <= value < 0x8000_0000 && convBuf.Length == 36
    modifies convBuf
    ensures out == if value < 0 then [MINUS] + Numeral(-value, 10) else Numeral(value, 10)
    ensures SignedValue(out) == value && (value < 0 ==> out[0] == 45)
  {
    var v := if value < 0 then (-value) % U32 else value;
    NumeralFits(v, 10);
    assert Radix(10) && v == if value < 0 then -value else value;
    SignedText(v);
    hide *;
    if value < 0 {
      PutNegative(v, convBuf);
    } else {
      Itoa(v, convBuf, 0, 10);
    }
    out := Puts(convBuf, 0);
  }

  // A minus sign, and the magnitude after it.
  method PutNegative(v: int, convBuf: array<Byte>)
    requires 0 <= v < U32 && convBuf.Length == 36
    modifies convBuf
    ensures NUL in convBuf[0..] && Text(convBuf[0..]) == [MINUS] + Numeral(v, 10)
  {
    NumeralFits(v, 10);
    hide *;
    convBuf[0] := MINUS;
    Itoa(v, convBuf, 1, 10);
    ghost var m := convBuf[0..];
    assert m == convBuf[..] && m[1..] == convBuf[1..];
    SignKept(m, old(convBuf[..]), Numeral(v, 10));
    MinusText(m, Numeral(v, 10));
  }

  lemma SignKept(m: seq<Byte>, before: seq<Byte>, num: seq<Byte>)
    requires |num| + 1 < |before| && m == Spliced(before[0 := MINUS], 1, num + [NUL])
    ensures |m| > 0 && m[0] == MINUS
  {
  }

  lemma MinusText(m: seq<Byte>, num: seq<Byte>)
    requires |m| > 0 && m[0] == MINUS && NUL in m[1..] && Text(m[1..]) == num
    ensures NUL in m && Text(m) == [MINUS] + num
  {
  }

  lemma SignedText(v: int)
    requires 0 <= v
    ensures SignedValue([MINUS] + Numeral(v, 10)) == -v && SignedValue(Numeral(v, 10)) == v
  {
    NumeralIsCanonical(v, 10);
    ValueOfNumeral(v, 10);
    hide Numeral;
    assert ([MINUS] + Numeral(v, 10))[1..] == Numeral(v, 10);
    assert IsDigit(Numeral(v, 10)[0], 10);
  }

  // %#x. The digits are at index 8; zeros are put in front of index 8, from
  // as many places on as there are digits.
  method PrintHex(value: int, convBuf: array<Byte>) returns (out: seq<Byte>)
    requires 0 <= value < U32 && convBuf.Length == 64
    modifies convBuf
    ensures |out| == 8 && Digits(out, 16) && Value(out, 16) == value
  {
    hide Numeral, Text, Value, Digits, Spliced;
    NumeralFits(value, 16);
    ghost var num := Numeral(value, 16);
    PaddedNumeral(value, 8 - |num|);
    Itoa(value, convBuf, 8, 16);
    var start := StrLen(convBuf, 8);
    var i := start;
    ghost var tail := convBuf[8..];
    while i < 8
      invariant start <= i <= 8
      invariant forall k :: start <= k < i ==> convBuf[k] == ZERO
      invariant convBuf[8..] == tail
    {
      convBuf[i] := ZERO;
      i := i + 1;
    }
    PaddedText(convBuf[..], num);
    assert convBuf[start..] == convBuf[..][start..];
    out := Puts(convBuf, start);
  }

  function Zeros(k: nat): (s: seq<Byte>) { seq(k, _ => ZERO) }

  lemma PaddedText(m: seq<Byte>, num: seq<Byte>)
    requires |num| <= 8 <= |m| && NUL in m[8..] && Text(m[8..]) == num
    requires forall k :: |num| <= k < 8 ==> m[k] == ZERO
    ensures NUL in m[|num|..] && Text(m[|num|..]) == Zeros(8 - |num|) + num
  {
    hide Text;
    var n := |num|;
    assert m[8..][..n] == num && m[8..][n] == NUL by { TextBefore(m[8..]); }
    var s := m[n..];
    assert s[8] == m[n + 8] == m[8..][n];
    assert s[..8] == m[n..8] + m[8..8 + n];
    assert m[n..8] == Zeros(8 - n) && m[8..8 + n] == m[8..][..n];
    TextEnds(s, 8);
  }

  lemma TextBefore(s: seq<Byte>)
    requires NUL in s
    ensures |Text(s)| < |s| && s[..|Text(s)|] == Text(s) && s[|Text(s)|] == NUL
  {
  }

  lemma {:induction false} ValueOfZeros(k: nat, r: int)
    ensures Value(Zeros(k), r) == 0
  {
    if k > 0 {
      assert Zeros(k)[..k - 1] == Zeros(k - 1);
      ValueOfZeros(k - 1, r);
    }
  }

  // Zeros in front do not change the value.
  lemma {:induction false} ValuePadded(k: nat, s: seq<Byte>, r: int)
    ensures Value(Zeros(k) + s, r) == Value(s, r)
  {
    var whole := Zeros(k) + s;
    if s == [] {
      assert whole == Zeros(k);
      ValueOfZeros(k, r);
    } else {
      var m := |s| - 1;
      assert whole[..|whole| - 1] == Zeros(k) + s[..m];
      ValuePadded(k, s[..m], r);
    }
  }

  lemma PaddedNumeral(v: nat, k: nat)
    ensures var s := Zeros(k) + Numeral(v, 16);
      Digits(s, 16) && Value(s, 16) == v
  {
    NumeralIsCanonical(v, 16);
    ValueOfNumeral(v, 16);
    ValuePadded(k, Numeral(v, 16), 16);
  }

  // ----- The digits themselves -----

  lemma DigitsAreLookup(d: int)
    requires 0 <= d < 36
    ensures Digit(d) as int == "0123456789ABCDEFGHIJKLMNOPQRSTUVWXYZ"[d] as int
  {
  }

  // The first digit has the most weight.
  lemma {:induction false} FirstDigitWeighs(c: Byte, s: seq<Byte>, r: int)
    requires r >= 0
    ensures Value([c] + s, r) == DigitValue(c) * Power(r, |s|) + Value(s, r)
  {
    var whole := [c] + s;
    if s == [] {
      assert whole[..0] == [] && Value([], r) == 0;
    } else {
      var n := |s| - 1;
      FirstDigitWeighs(c, s[..n], r);
      assert whole[..|s|] == [c] + s[..n];
      Distribute(DigitValue(c), Power(r, n), Value(s[..n], r), r);
    }
  }

  lemma Distribute(d: int, p: int, v: int, r: int)
    ensures (d * p + v) * r == d * (r * p) + v * r
  {
  }
}
