/**
 Big numbers as the byte strings that CBigNum exchanges (src/bignum.h:482-517): little-endian sign
 and magnitude, the top bit of the last byte being the sign. The bytes are those of OpenSSL's MPI
 format without its length prefix, reversed.
 */
module BigNum {

  type Byte = b: int | 0 <= b < 256

  function Pow256(k: nat): (p: nat)
    ensures p > 0
  {
    if k == 0 then 1 else 256 * Pow256(k - 1)
  }

  /** The minimal little-endian bytes of a magnitude; zero has none. */
  function Magnitude(n: nat): (s: seq<Byte>) {
    if n == 0 then [] else [n % 256] + Magnitude(n / 256)
  }

  function FromMagnitude(s: seq<Byte>): (n: nat) {
    if s == [] then 0 else s[0] + 256 * FromMagnitude(s[1..])
  }

  /** `getvch`. */
  function Encode(n: int): (s: seq<Byte>) {
    var m := Magnitude(if n < 0 then -n else n);
    if m == [] then []
    else
      var last := |m| - 1;
      if m[last] >= 0x80 then m + [if n < 0 then 0x80 else 0]
      else if n < 0 then m[last := m[last] + 0x80]
      else m
  }

  /** `setvch`. */
  function Decode(s: seq<Byte>): (n: int) {
    if s == [] then 0
    else
      var last := |s| - 1;
      if s[last] >= 0x80 then 0 - FromMagnitude(s[last := s[last] - 0x80]) else FromMagnitude(s)
  }

  lemma {:induction false} FromMagnitudeAppend(s: seq<Byte>, b: Byte)
    ensures FromMagnitude(s + [b]) == FromMagnitude(s) + b * Pow256(|s|)
  {
    if s == [] {
      assert s + [b] == [b];
      assert [b][1..] == [];
    } else {
      assert (s + [b])[1..] == s[1..] + [b];
      FromMagnitudeAppend(s[1..], b);
    }
  }

  lemma {:induction false} MagnitudeRoundTrip(n: nat)
    ensures FromMagnitude(Magnitude(n)) == n
    ensures n > 0 ==> Magnitude(n) != [] && Magnitude(n)[|Magnitude(n)| - 1] != 0
  {
    if n > 0 {
      MagnitudeRoundTrip(n / 256);
      assert Magnitude(n)[1..] == Magnitude(n / 256);
    }
  }

  /** Minimal byte strings are the magnitudes: only a last byte of zero is redundant. */
  lemma {:induction false} MagnitudeOfBytes(s: seq<Byte>)
    requires s == [] || s[|s| - 1] != 0
    ensures Magnitude(FromMagnitude(s)) == s
  {
    if s != [] {
      MagnitudeOfBytes(s[1..]);
      var r := FromMagnitude(s[1..]);
      assert (s[0] + 256 * r) % 256 == s[0] && (s[0] + 256 * r) / 256 == r;
      if s[1..] == [] {
        assert s == [s[0]];
      } else {
        NonZero(s[1..]);
      }
      assert s == [s[0]] + s[1..];
    }
  }

  lemma {:induction false} NonZero(s: seq<Byte>)
    requires s != [] && s[|s| - 1] != 0
    ensures FromMagnitude(s) > 0
  {
    if |s| > 1 {
      NonZero(s[1..]);
    }
  }

  lemma {:induction false} MagnitudeSize(n: nat, k: nat)
    ensures |Magnitude(n)| <= k <==> n < Pow256(k)
  {
    if n > 0 && k > 0 {
      MagnitudeSize(n / 256, k - 1);
      assert n < 256 * Pow256(k - 1) <==> n / 256 < Pow256(k - 1);
    }
  }

  /** `setvch` undoes `getvch`, for every number. */
  lemma RoundTrip(n: int)
    ensures Decode(Encode(n)) == n
  {
    var a := if n < 0 then -n else n;
    var m := Magnitude(a);
    MagnitudeRoundTrip(a);
    if m != [] {
      var last := |m| - 1;
      if m[last] >= 0x80 {
        var sign: Byte := if n < 0 then 0x80 else 0;
        assert (m + [sign])[last + 1 := 0] == m + [0];
        FromMagnitudeAppend(m, 0);
      } else if n < 0 {
        assert m[last := m[last] + 0x80][last := m[last]] == m;
      }
    }
  }

  /** A number below 256^k needs at most one byte more than k. */
  lemma EncodeSize(n: int, k: nat)
    requires 0 - Pow256(k) < n < Pow256(k)
    ensures |Encode(n)| <= k + 1
  {
    MagnitudeSize(if n < 0 then -n else n, k);
  }

  lemma {:induction false} FromMagnitudeBound(s: seq<Byte>)
    ensures FromMagnitude(s) < Pow256(|s|)
  {
    if s != [] {
      FromMagnitudeBound(s[1..]);
    }
  }

  lemma DecodeBound(s: seq<Byte>)
    ensures 0 - Pow256(|s|) < Decode(s) < Pow256(|s|)
  {
    if s != [] {
      FromMagnitudeBound(s);
      FromMagnitudeBound(s[|s| - 1 := s[|s| - 1] % 0x80]);
    }
  }

  /** The bytes are a magnitude in base 256, least digit first, whose top bit is the sign. */
  lemma SignMagnitude(s: seq<Byte>, b: Byte, digit: Byte)
    requires digit == if b >= 0x80 then b - 0x80 else b
    ensures Decode([]) == 0
    ensures Decode(s + [b]) == (var m := FromMagnitude(s) + digit * Pow256(|s|); if b >= 0x80 then -m else m)
  {
    FromMagnitudeAppend(s, digit);
    SignOf(s + [b], s + [digit], |s|, digit);
  }

  lemma SignOf(t: seq<Byte>, u: seq<Byte>, last: nat, digit: Byte)
    requires |t| == last + 1 && u == t[last := digit] && digit == if t[last] >= 0x80 then t[last] - 0x80 else t[last]
    ensures Decode(t) == if t[last] >= 0x80 then 0 - FromMagnitude(u) else FromMagnitude(u)
  {
    if t[last] < 0x80 { assert u == t; }
  }

  /** A number is written in k + 1 bytes exactly when seven bits and k bytes hold its magnitude. */
  lemma EncodeFits(n: int, k: nat)
    ensures |Encode(n)| <= k + 1 <==> 0 - 0x80 * Pow256(k) < n < 0x80 * Pow256(k)
  {
    var a: nat := if n < 0 then -n else n;
    var m := Magnitude(a);
    MagnitudeSize(a, k);
    MagnitudeSize(a, k + 1);
    if |m| == k + 1 {
      MagnitudeRoundTrip(a);
      var t, b := m[..k], m[k];
      assert m == t + [b];
      FromMagnitudeAppend(t, b);
      FromMagnitudeBound(t);
      assert b >= 0x80 <==> a >= 0x80 * Pow256(k) by { TopDigit(FromMagnitude(t), b, Pow256(k)); }
    }
  }

  lemma TopDigit(r: nat, b: Byte, p: nat)
    requires r < p
    ensures b >= 0x80 <==> r + b * p >= 0x80 * p
  {
    if b >= 0x80 {
      assert b * p >= 0x80 * p;
    } else {
      assert (b + 1) * p <= 0x80 * p;
    }
  }

  /** No byte string for a number is shorter than the one written. */
  lemma Shortest(s: seq<Byte>)
    ensures |Encode(Decode(s))| <= |s|
  {
    if s != [] {
      var k, b := |s| - 1, s[|s| - 1];
      assert s == s[..k] + [b];
      var digit: Byte := if b >= 0x80 then b - 0x80 else b;
      SignMagnitude(s[..k], b, digit);
      FromMagnitudeBound(s[..k]);
      TopDigit(FromMagnitude(s[..k]), digit, Pow256(k));
      EncodeFits(Decode(s), k);
    }
  }
}
