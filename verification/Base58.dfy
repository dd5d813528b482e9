/**
 Base 58 text for byte strings (src/base58.h:30-119), through the big numbers of src/bignum.h.

 Numbers are handled least significant digit first; the texts and byte strings themselves are most
 significant first, with leading zeros standing for themselves.
 */
module Base58 {
  import opened BigNum
  import opened Wrappers

  type Digit = d: int | 0 <= d < 58

  /** The alphabet: digits without 0, capitals without I and O, small letters without l, in that order. */
  function Letter(d: Digit): char {
    if d < 9 then '1' + d as char
    else if d < 17 then 'A' + (d - 9) as char
    else if d < 22 then 'J' + (d - 17) as char
    else if d < 33 then 'P' + (d - 22) as char
    else if d < 44 then 'a' + (d - 33) as char
    else 'm' + (d - 44) as char
  }

  /** The alphabet, spelled out. */
  lemma Alphabet(d: Digit)
    ensures Letter(d) == "123456789ABCDEFGHJKLMNPQRSTUVWXYZabcdefghijkmnopqrstuvwxyz"[d]
  {
    if d < 33 { AlphabetLow(d); } else { AlphabetHigh(d); }
  }

  lemma AlphabetLow(d: Digit)
    requires d < 33
    ensures Letter(d) == "123456789ABCDEFGHJKLMNPQRSTUVWXYZ"[d]
  {
  }

  lemma AlphabetHigh(d: Digit)
    requires d >= 33
    ensures Letter(d) == "abcdefghijkmnopqrstuvwxyz"[d - 33]
  {
  }

  // ----- digits -----

  function Digits(n: nat): (s: seq<Digit>) {
    if n == 0 then [] else [n % 58] + Digits(n / 58)
  }

  function Value(s: seq<Digit>): (n: nat) {
    if s == [] then 0 else s[0] + 58 * Value(s[1..])
  }

  lemma {:induction false} ValueOfDigits(n: nat)
    ensures Value(Digits(n)) == n
    ensures n > 0 ==> Digits(n) != [] && Digits(n)[|Digits(n)| - 1] != 0
  {
    if n > 0 {
      ValueOfDigits(n / 58);
      assert Digits(n)[1..] == Digits(n / 58);
    }
  }

  lemma {:induction false} DigitsOfValue(s: seq<Digit>)
    requires s == [] || s[|s| - 1] != 0
    ensures Digits(Value(s)) == s && (s != [] ==> Value(s) > 0)
  {
    if s != [] {
      var r := Value(s[1..]);
      DigitsOfValue(s[1..]);
      assert (s[0] + 58 * r) % 58 == s[0] && (s[0] + 58 * r) / 58 == r;
      assert s == [s[0]] + s[1..];
    }
  }

  function Zeros(k: nat): (s: seq<Digit>)
    ensures |s| == k && forall i {:trigger s[i]} :: 0 <= i < k ==> s[i] == 0
  {
    seq(k, _ => 0)
  }

  /** The number of zeros at the significant end of a digit string in either base. */
  function Padding(s: seq<int>): (k: nat)
    ensures k <= |s|
    ensures forall i {:trigger s[i]} :: |s| - k <= i < |s| ==> s[i] == 0
    ensures k < |s| ==> s[|s| - k - 1] != 0
  {
    if s == [] || s[|s| - 1] != 0 then 0 else 1 + Padding(s[..|s| - 1])
  }

  lemma {:induction false} PaddingOf(s: seq<int>, z: seq<int>)
    requires s == [] || s[|s| - 1] != 0
    requires forall i {:trigger z[i]} :: 0 <= i < |z| ==> z[i] == 0
    ensures Padding(s + z) == |z|
    decreases |z|
  {
    if z == [] {
      assert s + z == s;
    } else {
      var t := s + z;
      assert t[|t| - 1] == z[|z| - 1] && t[..|t| - 1] == s + z[..|z| - 1];
      PaddingOf(s, z[..|z| - 1]);
    }
  }

  lemma {:induction false} ValuePadded(s: seq<Digit>, k: nat)
    ensures Value(s + Zeros(k)) == Value(s)
  {
    if s == [] {
      assert s + Zeros(k) == Zeros(k);
      if k > 0 {
        assert Zeros(k)[1..] == Zeros(k - 1);
        assert [] + Zeros(k - 1) == Zeros(k - 1);
        ValuePadded([], k - 1);
      }
    } else {
      assert (s + Zeros(k))[1..] == s[1..] + Zeros(k);
      ValuePadded(s[1..], k);
    }
  }

  function ZeroBytes(k: nat): (s: seq<Byte>)
    ensures |s| == k && forall i {:trigger s[i]} :: 0 <= i < k ==> s[i] == 0
  {
    seq(k, _ => 0)
  }

  lemma {:induction false} MagnitudePadded(s: seq<Byte>, k: nat)
    ensures FromMagnitude(s + ZeroBytes(k)) == FromMagnitude(s)
    decreases k
  {
    if k == 0 {
      assert s + ZeroBytes(k) == s;
    } else {
      assert s + ZeroBytes(k) == (s + ZeroBytes(k - 1)) + [0];
      FromMagnitudeAppend(s + ZeroBytes(k - 1), 0);
      MagnitudePadded(s, k - 1);
    }
  }

  // ----- the two conversions -----

  function ToDigits(b: seq<Byte>): seq<Digit> {
    Digits(FromMagnitude(b)) + Zeros(Padding(b))
  }

  function ToBytes(d: seq<Digit>): seq<Byte> {
    Magnitude(Value(d)) + ZeroBytes(Padding(d))
  }

  lemma BytesSplit(b: seq<Byte>)
    ensures b == Magnitude(FromMagnitude(b)) + ZeroBytes(Padding(b))
  {
    var k := Padding(b);
    var m := b[..|b| - k];
    assert b == m + ZeroBytes(k);
    MagnitudePadded(m, k);
    MagnitudeOfBytes(m);
  }

  lemma DigitsSplit(d: seq<Digit>)
    ensures d == Digits(Value(d)) + Zeros(Padding(d))
  {
    var k := Padding(d);
    var m := d[..|d| - k];
    assert d == m + Zeros(k);
    ValuePadded(m, k);
    DigitsOfValue(m);
  }

  lemma BytesRoundTrip(b: seq<Byte>)
    ensures ToBytes(ToDigits(b)) == b
  {
    var n := FromMagnitude(b);
    ValueOfDigits(n);
    ValuePadded(Digits(n), Padding(b));
    PaddingOf(Digits(n), Zeros(Padding(b)));
    BytesSplit(b);
  }

  lemma DigitsRoundTrip(d: seq<Digit>)
    ensures ToDigits(ToBytes(d)) == d
  {
    var n := Value(d);
    MagnitudeRoundTrip(n);
    MagnitudePadded(Magnitude(n), Padding(d));
    PaddingOf(Magnitude(n), ZeroBytes(Padding(d)));
    DigitsSplit(d);
  }

  // ----- text -----

  lemma ReversedTwice<T>(s: seq<T>)
    ensures Reversed(Reversed(s)) == s
  {
  }

  /** `strchr` on the alphabet, from position k. */
  function Find(c: char, k: nat): (i: nat)
    requires k <= 58
    ensures k <= i <= 58 && (i < 58 ==> Letter(i) == c)
    ensures forall j {:trigger Letter(j)} :: k <= j < i ==> Letter(j) != c
    decreases 58 - k
  {
    if k == 58 || Letter(k) == c then k else Find(c, k + 1)
  }

  predicate InAlphabet(c: char) {
    Find(c, 0) < 58
  }

  /** The alphabet is in character order. */
  lemma Increasing(j: Digit, k: Digit)
    requires j < k
    ensures Letter(j) < Letter(k)
  {
  }

  lemma FindLetter(d: Digit)
    ensures Find(Letter(d), 0) == d
  {
    var i := Find(Letter(d), 0);
    if i < d {
      Increasing(i, d);
    }
  }

  function Letters(d: seq<Digit>): (t: string)
    ensures |t| == |d| && forall i {:trigger t[i]} :: 0 <= i < |d| ==> t[i] == Letter(d[i])
  {
    seq(|d|, i requires 0 <= i < |d| => Letter(d[i]))
  }

  predicate Plain(t: string) {
    forall i {:trigger t[i]} :: 0 <= i < |t| ==> InAlphabet(t[i])
  }

  function DigitsIn(t: string): (d: seq<Digit>)
    requires Plain(t)
    ensures |d| == |t| && forall i {:trigger d[i]} :: 0 <= i < |t| ==> d[i] == Find(t[i], 0)
  {
    seq(|t|, i requires 0 <= i < |t| => assert InAlphabet(t[i]); Find(t[i], 0))
  }

  lemma LettersDigits(d: seq<Digit>)
    ensures Plain(Letters(d)) && DigitsIn(Letters(d)) == d
  {
    forall i | 0 <= i < |d| ensures InAlphabet(Letters(d)[i]) && Find(Letters(d)[i], 0) == d[i] {
      FindLetter(d[i]);
    }
  }

  lemma DigitsLetters(t: string)
    requires Plain(t)
    ensures Letters(DigitsIn(t)) == t
  {
    forall i | 0 <= i < |t| ensures Letters(DigitsIn(t))[i] == t[i] {
      assert InAlphabet(t[i]);
    }
  }

  predicate IsSpace(c: char) { c == ' ' || '\t' <= c <= '\r' }

  function Encoded(b: seq<Byte>): (t: string) {
    Letters(Reversed(ToDigits(Reversed(b))))
  }

  function SkipSpaces(t: string): (r: string)
    ensures |r| <= |t| && (r != [] ==> !IsSpace(r[0]))
  {
    if t != [] && IsSpace(t[0]) then SkipSpaces(t[1..]) else t
  }

  /** The length of the leading part that is in the alphabet. */
  function PlainPart(t: string): (n: nat)
    ensures n <= |t| && Plain(t[..n]) && (n < |t| ==> !InAlphabet(t[n]))
  {
    if t == [] || !InAlphabet(t[0]) then 0
    else
      var n := PlainPart(t[1..]);
      PlainFirst(t, n);
      1 + n
  }

  lemma PlainFirst(t: string, n: nat)
    requires t != [] && InAlphabet(t[0]) && n < |t| && Plain(t[1..][..n])
    ensures Plain(t[..n + 1])
  {
    var h := t[..n + 1];
    forall i | 0 <= i < |h| ensures InAlphabet(h[i]) {
      if i > 0 { assert h[i] == t[1..][..n][i - 1]; }
    }
  }

  function BytesIn(t: string): seq<Byte>
    requires Plain(t)
  {
    Reversed(ToBytes(Reversed(DigitsIn(t))))
  }

  /** Spaces around a plain text are ignored; anything else is refused. */
  function Decoded(t: string): (r: Option<seq<Byte>>) {
    var s := SkipSpaces(t);
    var n := PlainPart(s);
    if SkipSpaces(s[n..]) == [] then Some(BytesIn(s[..n])) else None
  }

  /** Decoding undoes encoding, for every byte string, the empty one and leading zeros included. */
  lemma DecodeEncode(b: seq<Byte>)
    ensures Plain(Encoded(b)) && BytesIn(Encoded(b)) == b
  {
    var d := ToDigits(Reversed(b));
    LettersDigits(Reversed(d));
    ReversedTwice(d);
    BytesRoundTrip(Reversed(b));
    ReversedTwice(b);
  }

  /** The text is the number of the bytes, most significant digit and byte first, and leading zero bytes are as many
      leading ones. */
  lemma EncodedMeans(b: seq<Byte>)
    ensures var d := DigitsIn(Encoded(b));
      Value(Reversed(d)) == FromMagnitude(Reversed(b)) && Padding(Reversed(d)) == Padding(Reversed(b))
  {
    var d := ToDigits(Reversed(b));
    LettersDigits(Reversed(d));
    ReversedTwice(d);
    DigitsMean(Reversed(b), d, FromMagnitude(Reversed(b)));
  }

  lemma DigitsMean(s: seq<Byte>, d: seq<Digit>, n: nat)
    requires d == ToDigits(s) && n == FromMagnitude(s)
    ensures Value(d) == n && Padding(d) == Padding(s)
  {
    ValueOfDigits(n);
    ValuePadded(Digits(n), Padding(s));
    PaddingOf(Digits(n), Zeros(Padding(s)));
  }

  /** And encoding undoes decoding, for every text over the alphabet. */
  lemma EncodeDecode(t: string)
    requires Plain(t)
    ensures Encoded(BytesIn(t)) == t
  {
    var d := Reversed(DigitsIn(t));
    ReversedTwice(ToBytes(d));
    DigitsRoundTrip(d);
    ReversedTwice(DigitsIn(t));
    DigitsLetters(t);
  }

  predicate AllSpace(t: string) {
    forall i {:trigger t[i]} :: 0 <= i < |t| ==> IsSpace(t[i])
  }

  lemma NoLetterIsSpace(c: char)
    requires InAlphabet(c)
    ensures !IsSpace(c)
  {
    var i := Find(c, 0);
    if i > 0 {
      Increasing(0, i);
    }
  }

  lemma {:induction false} SkipsSpaces(a: string, t: string)
    requires AllSpace(a) && (t != [] ==> !IsSpace(t[0]))
    ensures SkipSpaces(a + t) == t
  {
    if a == [] {
      assert a + t == t;
    } else {
      assert (a + t)[0] == a[0] && (a + t)[1..] == a[1..] + t;
      SkipsSpaces(a[1..], t);
    }
  }

  lemma {:induction false} PlainPartOf(t: string, b: string)
    requires Plain(t) && (b != [] ==> !InAlphabet(b[0]))
    ensures PlainPart(t + b) == |t|
  {
    if t == [] {
      assert t + b == b;
    } else {
      assert (t + b)[0] == t[0] && (t + b)[1..] == t[1..] + b;
      PlainPartOf(t[1..], b);
    }
  }

  lemma SpaceNotPlain(c: char)
    requires IsSpace(c)
    ensures !InAlphabet(c)
  {
    if InAlphabet(c) {
      NoLetterIsSpace(c);
    }
  }

  /** What is accepted: a plain text with spaces around it, and its meaning is that of the text. */
  lemma DecodedPadded(a: string, t: string, b: string)
    requires AllSpace(a) && Plain(t) && AllSpace(b)
    ensures Decoded(a + t + b) == Some(BytesIn(t))
  {
    if t == [] {
      assert a + t + b == a + b;
      SkipsAll(a + b);
      assert t == [];
    } else {
      assert InAlphabet(t[0]);
      NoLetterIsSpace(t[0]);
      assert a + t + b == a + (t + b) && (t + b)[0] == t[0];
      SkipsSpaces(a, t + b);
      if b != [] {
        SpaceNotPlain(b[0]);
      }
      PlainPartOf(t, b);
      assert (t + b)[|t|..] == b && (t + b)[..|t|] == t;
      SkipsAll(b);
    }
  }

  lemma SkipsAll(b: string)
    requires AllSpace(b)
    ensures SkipSpaces(b) == []
  {
    SkipsSpaces(b, []);
    assert b + [] == b;
  }

  lemma {:induction false} SkippedSpaces(t: string)
    ensures AllSpace(t[..|t| - |SkipSpaces(t)|]) && t == t[..|t| - |SkipSpaces(t)|] + SkipSpaces(t)
  {
    if t != [] && IsSpace(t[0]) {
      SkippedSpaces(t[1..]);
      var n := |t| - |SkipSpaces(t)|;
      assert t[..n] == [t[0]] + t[1..][..n - 1];
    }
  }

  ghost predicate Padded(t: string, a: string, s: string, b: string) {
    t == a + s + b && AllSpace(a) && Plain(s) && AllSpace(b)
  }

  /** Nothing else is accepted. */
  lemma AcceptedIff(t: string)
    ensures Decoded(t).Some? <==> exists a, s, b :: Padded(t, a, s, b)
  {
    if Decoded(t).Some? {
      AcceptedParts(t);
    }
    forall a, s, b | Padded(t, a, s, b) ensures Decoded(t).Some? {
      DecodedPadded(a, s, b);
    }
  }

  lemma AcceptedParts(t: string)
    requires Decoded(t).Some?
    ensures exists a, s, b :: Padded(t, a, s, b)
  {
    var u := SkipSpaces(t);
    var n := PlainPart(u);
    var b := u[n..];
    SkippedSpaces(t);
    OnlySpaces(b);
    Regroup(t[..|t| - |u|], u, n);
    assert Padded(t, t[..|t| - |u|], u[..n], b);
  }

  lemma OnlySpaces(b: string)
    requires SkipSpaces(b) == []
    ensures AllSpace(b)
  {
    SkippedSpaces(b);
    assert b[..|b|] == b;
  }

  lemma Regroup(a: string, u: string, n: nat)
    requires n <= |u|
    ensures a + u == a + u[..n] + u[n..]
  {
  }

  lemma TextRoundTrip(b: seq<Byte>)
    ensures Decoded(Encoded(b)) == Some(b)
  {
    DecodeEncode(b);
    DecodedPadded([], Encoded(b), []);
    assert [] + Encoded(b) + [] == Encoded(b);
  }

  // ----- the loops -----

  lemma LettersAppend(d: seq<Digit>, c: Digit)
    ensures Letters(d + [c]) == Letters(d) + [Letter(c)]
  {
  }

  lemma DigitsShift(d: seq<Digit>, n: nat)
    requires n > 0
    ensures (d + [n % 58]) + Digits(n / 58) == d + Digits(n)
  {
    assert d + ([n % 58] + Digits(n / 58)) == (d + [n % 58]) + Digits(n / 58);
  }

  /** The division loop: digits from the least significant on. */
  method WriteDigits(n: nat) returns (text: string)
    ensures text == Letters(Digits(n))
  {
    text := "";
    var bn := n;
    ghost var d: seq<Digit> := [];
    while bn > 0
      invariant d + Digits(bn) == Digits(n)
      invariant text == Letters(d)
    {
      var c: Digit := bn % 58;
      LettersAppend(d, c);
      DigitsShift(d, bn);
      text := text + [Letter(c)];
      d := d + [c];
      bn := bn / 58;
    }
    assert d + [] == d;
  }

  method EncodeBase58(bytes: seq<Byte>) returns (text: string)
    ensures text == Encoded(bytes)
  {
    var little := Reversed(bytes);
    text := WriteDigits(SignExtended(little));
    ghost var d := Digits(FromMagnitude(little));
    var p := 0;
    assert d + Zeros(0) == d;
    while p < |bytes| && bytes[p] == 0
      invariant 0 <= p <= |bytes| && forall i :: 0 <= i < p ==> bytes[i] == 0
      invariant text == Letters(d + Zeros(p))
    {
      LettersAppend(d + Zeros(p), 0);
      assert d + Zeros(p + 1) == (d + Zeros(p)) + [0];
      text := text + [Letter(0)];
      p := p + 1;
    }
    LeadingZeros(bytes, little, p);
    ReverseLetters(d + Zeros(p));
    text := Reversed(text);
  }

  lemma ReverseLetters(d: seq<Digit>)
    ensures Reversed(Letters(d)) == Letters(Reversed(d))
  {
  }

  lemma LeadingZeros(s: seq<int>, r: seq<int>, p: nat)
    requires |r| == |s| && forall i {:trigger r[i]} :: 0 <= i < |s| ==> r[i] == s[|s| - 1 - i]
    requires p <= |s| && (p < |s| ==> s[p] != 0) && forall i :: 0 <= i < p ==> s[i] == 0
    ensures Padding(r) == p
  {
    var n := |s| - p;
    assert r == r[..n] + r[n..];
    PaddingOf(r[..n], r[n..]);
  }

  /** The extra zero byte keeps the number from being read as negative. */
  function SignExtended(s: seq<Byte>): (n: nat)
    ensures n == FromMagnitude(s)
  {
    FromMagnitudeAppend(s, 0);
    Decode(s + [0])
  }

  /** `DecodeBase58`: the text is read up to its end, standing for the terminating zero. */
  method DecodeBase58(text: string) returns (r: Option<seq<Byte>>)
    ensures r == Decoded(text)
  {
    var s := SkipLoop(text);
    var n, p := ReadDigits(s);
    var rest := SkipLoop(s[p..]);
    if rest != [] {
      return None;
    }
    var bytes := Trimmed(n);
    var zeros := CountOnes(s, p);
    r := Some(ZeroBytes(zeros) + Reversed(bytes));
    PadReversed(bytes, zeros);
  }

  lemma PadReversed(bytes: seq<Byte>, k: nat)
    ensures ZeroBytes(k) + Reversed(bytes) == Reversed(bytes + ZeroBytes(k))
  {
  }

  method CountOnes(s: string, ghost p: nat) returns (zeros: nat)
    requires p == PlainPart(s)
    ensures zeros == Padding(Reversed(DigitsIn(s[..p])))
  {
    zeros := 0;
    ghost var d := DigitsIn(s[..p]);
    while zeros < |s| && s[zeros] == Letter(0)
      invariant 0 <= zeros <= p && forall i :: 0 <= i < zeros ==> d[i] == 0
    {
      OneIsZero(s, p, zeros);
      zeros := zeros + 1;
    }
    StopsAtNonzero(s, p, zeros);
    PaddingOfReversed(d, zeros);
  }

  lemma PaddingOfReversed(d: seq<Digit>, p: nat)
    requires p <= |d| && (p < |d| ==> d[p] != 0) && forall i :: 0 <= i < p ==> d[i] == 0
    ensures Padding(Reversed(d)) == p
  {
    LeadingZeros(d, Reversed(d), p);
  }

  lemma OneIsZero(s: string, p: nat, i: nat)
    requires p == PlainPart(s) && i <= p && i < |s| && s[i] == Letter(0)
    ensures i < p && DigitsIn(s[..p])[i] == 0
  {
    FindLetter(0);
    assert i < p ==> s[..p][i] == s[i];
  }

  lemma StopsAtNonzero(s: string, p: nat, zeros: nat)
    requires p == PlainPart(s) && zeros <= p && (zeros < |s| ==> s[zeros] != Letter(0))
    ensures zeros < p ==> DigitsIn(s[..p])[zeros] != 0
  {
    if zeros < p {
      assert InAlphabet(s[..p][zeros]);
    }
  }

  method SkipLoop(text: string) returns (s: string)
    ensures s == SkipSpaces(text)
  {
    s := text;
    while s != [] && IsSpace(s[0])
      invariant SkipSpaces(s) == SkipSpaces(text)
    {
      s := s[1..];
    }
  }

  /** The multiplication loop, up to the first character outside the alphabet. */
  method ReadDigits(s: string) returns (n: nat, p: nat)
    ensures p == PlainPart(s) && n == Value(Reversed(DigitsIn(s[..p])))
  {
    n, p := 0, 0;
    ghost var d: seq<Digit> := [];
    assert s[0..] == s;
    while p < |s| && InAlphabet(s[p])
      invariant 0 <= p <= |s| && Plain(s[..p]) && p + PlainPart(s[p..]) == PlainPart(s)
      invariant d == DigitsIn(s[..p]) && n == Value(Reversed(d))
    {
      var c: Digit := Find(s[p], 0);
      assert s[p..][1..] == s[p + 1..];
      NextDigit(s, p, c);
      ValueAppend(d, c);
      n := 58 * n + c;
      d := d + [c];
      p := p + 1;
    }
  }

  lemma NextDigit(s: string, p: nat, c: Digit)
    requires p < |s| && Plain(s[..p]) && InAlphabet(s[p]) && c == Find(s[p], 0)
    ensures Plain(s[..p + 1]) && DigitsIn(s[..p + 1]) == DigitsIn(s[..p]) + [c]
  {
    var t, u := s[..p], s[..p + 1];
    forall i | 0 <= i < |u| ensures InAlphabet(u[i]) && Find(u[i], 0) == (DigitsIn(t) + [c])[i] {
      if i < p {
        assert u[i] == t[i];
      }
    }
  }

  lemma ValueAppend(d: seq<Digit>, c: Digit)
    ensures Value(Reversed(d + [c])) == 58 * Value(Reversed(d)) + c
  {
    assert Reversed(d + [c])[1..] == Reversed(d);
  }

  /** The number's bytes without the sign byte. */
  method Trimmed(n: nat) returns (bytes: seq<Byte>)
    ensures bytes == Magnitude(n)
  {
    MagnitudeRoundTrip(n);
    bytes := Encode(n);
    var k := |bytes|;
    if k >= 2 && bytes[k - 1] == 0 && bytes[k - 2] >= 0x80 {
      bytes := bytes[..k - 1];
    }
  }
}
