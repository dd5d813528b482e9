/**
 The two variable-length integer codes of src/serialize.h: VarInt (lines 330-394), base 128 with one
 subtracted from every digit but the last, and CompactSize (lines 258-329).
 */
module VarInt {
  import opened BigNum
  import opened Wrappers
  import opened ScriptCode

  const MAX_SIZE := 0x0200_0000

  /** The values of an unsigned type of the given width. */
  function Range(bits: nat): (m: nat)
    requires bits == 32 || bits == 64
  {
    if bits == 32 then 0x1_0000_0000 else 0x1_0000_0000_0000_0000
  }

  /** The digits above the last one all carry the continuation bit. */
  function Digits(n: nat, more: bool): (s: seq<Byte>)
    ensures s != []
  {
    var flag := if more then 0x80 else 0;
    if n <= 0x7f then [n + flag] else Digits(n / 128 - 1, true) + [n % 128 + flag]
  }

  function Write(n: nat): seq<Byte> {
    Digits(n, false)
  }

  /** Reading into an accumulator without a bound; the second part is what follows. */
  function ReadFrom(acc: nat, s: seq<Byte>): (r: Option<(nat, seq<Byte>)>)
    decreases |s|
  {
    if s == [] then None
    else
      var n := acc * 128 + s[0] % 128;
      if s[0] >= 0x80 then ReadFrom(n + 1, s[1..]) else Some((n, s[1..]))
  }

  function Read(s: seq<Byte>): Option<(nat, seq<Byte>)> {
    ReadFrom(0, s)
  }

  /** All bytes but the last have the continuation bit. */
  predicate Terminated(s: seq<Byte>) {
    s != [] && s[|s| - 1] < 0x80 && forall i {:trigger s[i]} :: 0 <= i < |s| - 1 ==> s[i] >= 0x80
  }

  /** The number of a string of digits that are all continued, plus the one that each of them adds. */
  function Continued(s: seq<Byte>): (n: nat) {
    if s == [] then 0 else Continued(s[..|s| - 1]) * 128 + s[|s| - 1] % 128 + 1
  }

  function Value(s: seq<Byte>): nat
    requires s != []
  {
    Continued(s[..|s| - 1]) * 128 + s[|s| - 1] % 128
  }

  lemma {:induction false} DigitsValue(n: nat, more: bool)
    ensures var s := Digits(n, more);
      && Value(s) == n
      && (forall i {:trigger s[i]} :: 0 <= i < |s| - 1 ==> s[i] >= 0x80)
      && (s[|s| - 1] >= 0x80 <==> more)
  {
    var s := Digits(n, more);
    if n <= 0x7f {
      assert s[..0] == [];
    } else {
      var q: nat := n / 128 - 1;
      DigitsValue(q, true);
      var t := Digits(q, true);
      assert s[..|s| - 1] == t;
      assert Continued(t) == Value(t) + 1;
    }
  }

  /** Every number is written as a terminated string that means it... */
  lemma WriteValue(n: nat)
    ensures Terminated(Write(n)) && Value(Write(n)) == n
  {
    DigitsValue(n, false);
  }

  /** ...and every terminated string is what its number is written as. */
  lemma WriteOfValue(s: seq<Byte>)
    requires Terminated(s)
    ensures Write(Value(s)) == s
  {
    DigitsOfValue(s, false);
  }

  lemma {:induction false} DigitsOfValue(s: seq<Byte>, more: bool)
    requires s != [] && (s[|s| - 1] >= 0x80 <==> more)
    requires forall i {:trigger s[i]} :: 0 <= i < |s| - 1 ==> s[i] >= 0x80
    ensures Digits(Value(s), more) == s
    decreases |s|
  {
    var t, b, n := s[..|s| - 1], s[|s| - 1], Value(s);
    if t == [] {
      OneDigit(s, b, more, n);
    } else {
      var q := Value(t);
      DigitsOfValue(t, true);
      ValueStep(s, t, b, q, n);
      LastDigit(q, b, more, n);
      assert s == t + [b];
    }
  }

  lemma ValueStep(s: seq<Byte>, t: seq<Byte>, b: Byte, q: nat, n: nat)
    requires s != [] && t == s[..|s| - 1] && t != [] && b == s[|s| - 1] && q == Value(t) && n == Value(s)
    ensures n == (q + 1) * 128 + b % 128
  {
    assert Continued(t) == q + 1;
  }

  lemma OneDigit(s: seq<Byte>, b: Byte, more: bool, n: nat)
    requires s == [b] && (b >= 0x80 <==> more) && n == Value(s)
    ensures Digits(n, more) == s
  {
  }

  lemma LastDigit(q: nat, b: Byte, more: bool, n: nat)
    requires (b >= 0x80 <==> more) && n == (q + 1) * 128 + b % 128
    ensures Digits(n, more) == Digits(q, true) + [b]
  {
    assert n > 0x7f && n / 128 - 1 == q && n % 128 == b % 128;
    assert b == b % 128 + if more then 0x80 else 0;
  }

  lemma {:induction false} ReadContinued(head: seq<Byte>, s: seq<Byte>)
    requires forall i {:trigger head[i]} :: 0 <= i < |head| ==> head[i] >= 0x80
    ensures Read(head + s) == ReadFrom(Continued(head), s)
    decreases |head|
  {
    if head == [] {
      assert head + s == s;
    } else {
      var k := |head| - 1;
      var t := [head[k]] + s;
      assert head + s == head[..k] + t;
      ReadContinued(head[..k], t);
      assert t[1..] == s;
    }
  }

  lemma ReadTerminated(s: seq<Byte>, rest: seq<Byte>)
    requires Terminated(s)
    ensures Read(s + rest) == Some((Value(s), rest))
  {
    var k := |s| - 1;
    var t := [s[k]] + rest;
    assert s + rest == s[..k] + t;
    ReadContinued(s[..k], t);
    assert t[1..] == rest;
  }

  lemma ReadWrite(n: nat, rest: seq<Byte>)
    ensures Read(Write(n) + rest) == Some((n, rest))
  {
    WriteValue(n);
    ReadTerminated(Write(n), rest);
  }

  /** What was read is what its number is written as: there is no second form of any number. */
  lemma {:induction false} WriteRead(s: seq<Byte>)
    requires Read(s).Some?
    ensures s == Write(Read(s).value.0) + Read(s).value.1
  {
    var k := Terminator(s);
    var t := s[..k + 1];
    assert s == t + s[k + 1..];
    ReadTerminated(t, s[k + 1..]);
    WriteOfValue(t);
  }

  lemma {:induction false} ReadNeedsEnd(acc: nat, s: seq<Byte>)
    requires ReadFrom(acc, s).Some?
    ensures exists k :: 0 <= k < |s| && s[k] < 0x80
    decreases |s|
  {
    if s[0] >= 0x80 {
      ReadNeedsEnd(acc * 128 + s[0] % 128 + 1, s[1..]);
      var k :| 0 <= k < |s[1..]| && s[1..][k] < 0x80;
      assert s[k + 1] < 0x80;
    }
  }

  ghost function Terminator(s: seq<Byte>): (k: nat)
    requires Read(s).Some?
    ensures k < |s| && Terminated(s[..k + 1])
  {
    ReadNeedsEnd(0, s);
    FirstEnd(s)
  }

  ghost function FirstEnd(s: seq<Byte>): (k: nat)
    requires exists k :: 0 <= k < |s| && s[k] < 0x80
    ensures k < |s| && s[k] < 0x80 && forall i {:trigger s[i]} :: 0 <= i < k ==> s[i] >= 0x80
    decreases |s|
  {
    if s[0] < 0x80 then 0
    else
      var k :| 0 <= k < |s| && s[k] < 0x80;
      assert s[1..][k - 1] < 0x80;
      1 + FirstEnd(s[1..])
  }

  // ----- sizes -----

  /** How many numbers have at most k digits. */
  function Count(k: nat): nat {
    if k == 0 then 0 else 128 * (Count(k - 1) + 1)
  }

  lemma {:induction false} WriteLength(n: nat, more: bool, k: nat)
    ensures |Digits(n, more)| <= k <==> n < Count(k)
    decreases n
  {
    if k > 0 {
      if n > 0x7f {
        WriteLength(n / 128 - 1, true, k - 1);
      } else {
        assert Count(k) >= 128;
      }
    }
  }

  lemma CountTen()
    ensures Count(4) < Range(32) <= Count(5)
    ensures Count(9) < Range(64) <= Count(10)
  {
    assert Count(1) == 128 && Count(2) == 16512 && Count(3) == 2113664 && Count(4) == 270549120 && Count(5) == 34630287488;
    assert Count(6) == 4432676798592 && Count(7) == 567382630219904 && Count(8) == 72624976668147840;
    assert Count(9) == 9295997013522923648 && Count(10) == 1189887617730934227072;
  }

  /** The temporary buffer of (bits + 6) / 7 bytes holds every value and is needed in full. */
  lemma BufferFits(bits: nat, n: nat)
    requires bits == 32 || bits == 64
    ensures n < Range(bits) ==> |Write(n)| <= (bits + 6) / 7
    ensures n == Range(bits) - 1 ==> |Write(n)| == (bits + 6) / 7
  {
    CountTen();
    var k := (bits + 6) / 7;
    WriteLength(n, false, k);
    WriteLength(n, false, k - 1);
  }

  method GetSizeOfVarInt(n: nat) returns (size: nat)
    ensures size == |Write(n)|
  {
    size := 1;
    var m, more := n, false;
    while m > 0x7f
      invariant size - 1 + |Digits(m, more)| == |Write(n)|
      decreases m
    {
      m := m / 128 - 1;
      more := true;
      size := size + 1;
    }
  }

  /** `WriteVarInt`: least significant digit first into the buffer, then out in reverse. */
  method WriteVarInt(bits: nat, value: nat) returns (out: seq<Byte>)
    requires (bits == 32 || bits == 64) && value < Range(bits)
    ensures out == Write(value)
  {
    var tmp := new Byte[(bits + 6) / 7](_ => 0);
    BufferFits(bits, value);
    var len := FillBuffer(tmp, value);
    out := [];
    while len > 0
      invariant 0 <= len <= tmp.Length && out + Reversed(tmp[..len]) == Write(value)
    {
      len := len - 1;
      assert tmp[..len + 1] == tmp[..len] + [tmp[len]];
      Shift(out, tmp[..len], tmp[len]);
      out := out + [tmp[len]];
    }
  }

  lemma Shift(out: seq<Byte>, s: seq<Byte>, b: Byte)
    ensures out + Reversed(s + [b]) == (out + [b]) + Reversed(s)
  {
  }

  /** The digits in the buffer, in reverse order; no index is out of its range. */
  method FillBuffer(tmp: array<Byte>, value: nat) returns (len: nat)
    requires |Write(value)| <= tmp.Length
    modifies tmp
    ensures 0 < len <= tmp.Length && Reversed(tmp[..len]) == Write(value)
  {
    var n := value;
    len := 0;
    while n > 0x7f
      invariant len + |Digits(n, len > 0)| <= tmp.Length
      invariant Digits(n, len > 0) + Reversed(tmp[..len]) == Write(value)
      decreases n
    {
      var digit: Byte := n % 128 + if len > 0 then 0x80 else 0;
      NextDigit(n, len > 0, digit, tmp[..len]);
      tmp[len] := digit;
      assert tmp[..len + 1] == tmp[..len] + [digit];
      n := n / 128 - 1;
      len := len + 1;
    }
    var digit: Byte := n + if len > 0 then 0x80 else 0;
    Shift([], tmp[..len], digit);
    tmp[len] := digit;
    assert tmp[..len + 1] == tmp[..len] + [digit];
    len := len + 1;
  }

  lemma NextDigit(n: nat, more: bool, digit: Byte, was: seq<Byte>)
    requires n > 0x7f && digit == n % 128 + if more then 0x80 else 0
    ensures Digits(n / 128 - 1, true) + Reversed(was + [digit]) == Digits(n, more) + Reversed(was)
    ensures |Digits(n, more)| == 1 + |Digits(n / 128 - 1, true)|
  {
    assert Reversed(was + [digit]) == [digit] + Reversed(was);
  }

  /** One step of `ReadVarInt` in a type of fixed width: shifting drops high bits, and so does the increment. */
  function FixedStep(bits: nat, acc: nat, b: Byte): (n: nat)
    requires bits == 32 || bits == 64
  {
    var n := (acc * 128) % Range(bits) + b % 128;
    if b >= 0x80 then (n + 1) % Range(bits) else n
  }

  /** What is read in a type of fixed width, from a partial value on. */
  function ReadFixedFrom(bits: nat, acc: nat, s: seq<Byte>): (r: Option<(nat, seq<Byte>)>)
    requires bits == 32 || bits == 64
    decreases |s|
  {
    if s == [] then None
    else if s[0] < 0x80 then Some((FixedStep(bits, acc, s[0]), s[1..]))
    else ReadFixedFrom(bits, FixedStep(bits, acc, s[0]), s[1..])
  }

  function ReadFixed(bits: nat, s: seq<Byte>): (r: Option<(nat, seq<Byte>)>)
    requires bits == 32 || bits == 64
  {
    ReadFixedFrom(bits, 0, s)
  }

  function Reduced(bits: nat, r: Option<(nat, seq<Byte>)>): Option<(nat, seq<Byte>)>
    requires bits == 32 || bits == 64
  {
    if r.None? then None else Some((r.value.0 % Range(bits), r.value.1))
  }

  lemma FixedStepIs(bits: nat, exact: nat, acc: nat, b: Byte, next: nat)
    requires (bits == 32 || bits == 64) && acc == exact % Range(bits)
    requires next == if b >= 0x80 then exact * 128 + b % 128 + 1 else exact * 128 + b % 128
    ensures FixedStep(bits, acc, b) == next % Range(bits)
  {
    Wraps(bits, exact, b);
  }

  /** Reading in fixed width is reading the exact number and reducing it at the end. */
  lemma {:induction false} FixedFromIsReduced(bits: nat, exact: nat, acc: nat, s: seq<Byte>)
    requires (bits == 32 || bits == 64) && acc == exact % Range(bits)
    ensures ReadFixedFrom(bits, acc, s) == Reduced(bits, ReadFrom(exact, s))
    decreases |s|
  {
    if s != [] {
      var next := exact * 128 + s[0] % 128;
      if s[0] >= 0x80 {
        next := next + 1;
      }
      FixedStepIs(bits, exact, acc, s[0], next);
      if s[0] >= 0x80 {
        FixedFromIsReduced(bits, next, FixedStep(bits, acc, s[0]), s[1..]);
      }
    }
  }

  lemma FixedIsReduced(bits: nat, s: seq<Byte>)
    requires bits == 32 || bits == 64
    ensures ReadFixed(bits, s) == Reduced(bits, Read(s))
  {
    FixedFromIsReduced(bits, 0, 0, s);
  }

  /** `ReadVarInt`, byte by byte. */
  method ReadVarInt(bits: nat, s: seq<Byte>) returns (r: Option<(nat, seq<Byte>)>)
    requires bits == 32 || bits == 64
    ensures r == ReadFixed(bits, s) == Reduced(bits, Read(s))
  {
    FixedIsReduced(bits, s);
    var n: nat, rest := 0, s;
    while rest != []
      invariant ReadFixedFrom(bits, n, rest) == ReadFixed(bits, s)
      decreases |rest|
    {
      var b := rest[0];
      rest := rest[1..];
      n := FixedStep(bits, n, b);
      if b < 0x80 {
        return Some((n, rest));
      }
    }
    return None;
  }

  lemma Wraps(bits: nat, exact: nat, b: Byte)
    requires bits == 32 || bits == 64
    ensures exact % Range(bits) * 128 % Range(bits) + b % 128 == (exact * 128 + b % 128) % Range(bits)
    ensures (exact % Range(bits) * 128 % Range(bits) + b % 128 + 1) % Range(bits) == (exact * 128 + b % 128 + 1) % Range(bits)
  {
    if bits == 32 {
      Wraps32(exact, b % 128);
    } else {
      Wraps64(exact, b % 128);
    }
  }

  lemma Wraps32(exact: nat, low: nat)
    requires low < 128
    ensures exact % 0x1_0000_0000 * 128 % 0x1_0000_0000 + low == (exact * 128 + low) % 0x1_0000_0000
    ensures (exact % 0x1_0000_0000 * 128 % 0x1_0000_0000 + low + 1) % 0x1_0000_0000 == (exact * 128 + low + 1) % 0x1_0000_0000
  {
    var q, r := exact / 0x1_0000_0000, exact % 0x1_0000_0000;
    var t, x := r * 128 / 0x1_0000_0000, r * 128 % 0x1_0000_0000;
    assert x == 128 * (r - 0x200_0000 * t);
    assert exact * 128 + low == 0x1_0000_0000 * (128 * q + t) + (x + low);
  }

  lemma Wraps64(exact: nat, low: nat)
    requires low < 128
    ensures exact % 0x1_0000_0000_0000_0000 * 128 % 0x1_0000_0000_0000_0000 + low == (exact * 128 + low) % 0x1_0000_0000_0000_0000
    ensures (exact % 0x1_0000_0000_0000_0000 * 128 % 0x1_0000_0000_0000_0000 + low + 1) % 0x1_0000_0000_0000_0000
         == (exact * 128 + low + 1) % 0x1_0000_0000_0000_0000
  {
    var q, r := exact / 0x1_0000_0000_0000_0000, exact % 0x1_0000_0000_0000_0000;
    var t, x := r * 128 / 0x1_0000_0000_0000_0000, r * 128 % 0x1_0000_0000_0000_0000;
    assert x == 128 * (r - 0x200_0000_0000_0000 * t);
    assert exact * 128 + low == 0x1_0000_0000_0000_0000 * (128 * q + t) + (x + low);
  }

  lemma FitsIff(bits: nat, n: nat)
    requires bits == 32 || bits == 64
    ensures n % Range(bits) == n <==> n < Range(bits)
  {
  }

  /** Fixed width returns a written number exactly when the number is one of that width. */
  lemma FixedWidth(bits: nat, n: nat, rest: seq<Byte>)
    requires bits == 32 || bits == 64
    ensures ReadFixed(bits, Write(n) + rest) == Some((n, rest)) <==> n < Range(bits)
  {
    ReadWrite(n, rest);
    FixedIsReduced(bits, Write(n) + rest);
    FitsIff(bits, n);
  }

  // ----- CompactSize -----

  /** The width of the number after its first byte. */
  function CompactWidth(n: nat): nat {
    if n < 253 then 0 else if n <= 0xffff then 2 else if n <= 0xffff_ffff then 4 else 8
  }

  function Marker(width: nat): Byte {
    if width == 2 then 253 else if width == 4 then 254 else 255
  }

  function WriteCompactSize(n: nat): (s: seq<Byte>)
    ensures |s| == 1 + CompactWidth(n)
  {
    if n < 253 then [n] else [Marker(CompactWidth(n))] + LittleEndian(n, CompactWidth(n))
  }

  /** Longer forms than needed are refused, and so are sizes over the limit. */
  function ReadCompactSize(s: seq<Byte>): (r: Option<(nat, seq<Byte>)>) {
    if s == [] then None
    else
      var width := if s[0] < 253 then 0 else if s[0] == 253 then 2 else if s[0] == 254 then 4 else 8;
      if |s| < 1 + width then None
      else
        var n: nat := if width == 0 then s[0] else FromMagnitude(s[1..1 + width]);
        if width == 2 && n < 253 then None
        else if width == 4 && n < 0x1_0000 then None
        else if width == 8 && n < 0x1_0000_0000 then None
        else if n > MAX_SIZE then None
        else Some((n, s[1 + width..]))
  }

  lemma WidthFits(n: nat)
    requires n < Range(64)
    ensures CompactWidth(n) > 0 ==> n < Pow256(CompactWidth(n))
    ensures Pow256(2) == 0x1_0000 && Pow256(4) == 0x1_0000_0000 && Pow256(8) == Range(64)
  {
    assert Pow256(1) == 256 && Pow256(2) == 0x1_0000 && Pow256(3) == 0x100_0000 && Pow256(4) == 0x1_0000_0000;
    assert Pow256(5) == 0x100_0000_0000 && Pow256(6) == 0x1_0000_0000_0000 && Pow256(7) == 0x100_0000_0000_0000;
  }

  /** One byte below 253; else 253, 254 or 255 before two, four or eight bytes, least significant first, the fewest
      that hold the number. */
  lemma CompactSizeIs(n: nat)
    requires n < Range(64)
    ensures var s := WriteCompactSize(n);
      if n < 253 then s == [n]
      else
        && FromMagnitude(s[1..]) == n
        && if n < 0x1_0000 then s[0] == 253 && |s| == 3 else if n < 0x1_0000_0000 then s[0] == 254 && |s| == 5 else s[0] == 255 && |s| == 9
  {
    WidthFits(n);
    if n >= 253 {
      LittleEndianValue(n, CompactWidth(n));
      assert WriteCompactSize(n)[1..] == LittleEndian(n, CompactWidth(n));
    }
  }

  /** A size comes back exactly when it is within the limit, and is refused otherwise. */
  lemma ReadOfWritten(n: nat, rest: seq<Byte>)
    requires n < Range(64)
    ensures ReadCompactSize(WriteCompactSize(n) + rest) == if n <= MAX_SIZE then Some((n, rest)) else None
  {
    var s := WriteCompactSize(n) + rest;
    var width := CompactWidth(n);
    WidthFits(n);
    assert s[1 + width..] == rest;
    if width > 0 {
      assert s[1..1 + width] == LittleEndian(n, width);
      LittleEndianValue(n, width);
    }
  }

  /** Whatever is read has the one form that writing gives it. */
  lemma WrittenOfRead(s: seq<Byte>)
    requires ReadCompactSize(s).Some?
    ensures s == WriteCompactSize(ReadCompactSize(s).value.0) + ReadCompactSize(s).value.1
  {
    var r := ReadCompactSize(s).value;
    if s[0] < 253 {
      assert s == [s[0]] + s[1..];
    } else {
      var width := if s[0] == 253 then 2 else if s[0] == 254 then 4 else 8;
      LongForm(s, width, s[1..1 + width], s[1 + width..], r.0);
    }
  }

  lemma LongForm(s: seq<Byte>, width: nat, digits: seq<Byte>, rest: seq<Byte>, n: nat)
    requires s != [] && s[0] >= 253 && width == (if s[0] == 253 then 2 else if s[0] == 254 then 4 else 8)
    requires |s| >= 1 + width && digits == s[1..1 + width] && rest == s[1 + width..] && n == FromMagnitude(digits)
    requires if width == 2 then n >= 253 else if width == 4 then n >= 0x1_0000 else n >= 0x1_0000_0000
    ensures s == WriteCompactSize(n) + rest
  {
    WidthFits(0);
    FromMagnitudeBound(digits);
    LittleEndianOf(digits);
    assert CompactWidth(n) == width;
    assert s == ([s[0]] + digits) + rest;
  }
}
