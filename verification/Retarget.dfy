/**
 The difficulty target: its lossy compact form (src/bignum.h:519-558) and the per-block retarget
 (src/main.cpp:1199-1245, src/main.h:69-96).
 */
module Retarget {
  import opened BigNum

  const TARGET_TIMESPAN := 16 * 60

  // ----- compact form -----

  function SizeByte(c: nat): nat { c / 0x100_0000 }

  /** The leading bytes of a compact number, the most significant one first. */
  function CompactByte(c: nat, k: nat): (b: nat)
    ensures b < 256
  {
    if k == 1 then c / 0x1_0000 % 256 else if k == 2 then c / 256 % 256 else if k == 3 then c % 256 else 0
  }

  /** The bytes, little-endian, that a compact number stands for: a size and the three leading bytes. */
  function CompactBytes(c: nat): (s: seq<Byte>)
    ensures |s| == SizeByte(c) && forall i {:trigger s[i]} :: 0 <= i < |s| ==> s[i] == CompactByte(c, |s| - i)
  {
    seq(SizeByte(c), i requires 0 <= i < SizeByte(c) => CompactByte(c, SizeByte(c) - i))
  }

  function SetCompact(c: nat): int {
    Decode(CompactBytes(c))
  }

  /** The k-th byte from the top, zero when there is none. */
  function FromTop(s: seq<Byte>, k: nat): (b: nat)
    requires k > 0
    ensures b < 256
  {
    if k <= |s| then s[|s| - k] else 0
  }

  function Leading(s: seq<Byte>): (x: nat)
    ensures x < 0x100_0000
  {
    FromTop(s, 1) * 0x1_0000 + FromTop(s, 2) * 256 + FromTop(s, 3)
  }

  function SizeAndBytes(s: seq<Byte>): nat {
    |s| * 0x100_0000 + Leading(s)
  }

  /** The size is shifted within 32 bits. */
  function GetCompact(n: int): nat {
    SizeAndBytes(Encode(n)) % 0x1_0000_0000
  }

  /** A non-negative number with all but its leading bytes cleared: those that fit three bytes stay. */
  function Rounded(n: nat): (r: nat)
    ensures r <= n
  {
    if n < 0x80_0000 then n else 256 * Rounded(n / 256)
  }

  lemma EncodeStep(n: nat)
    requires n >= 256
    ensures Encode(n) == [n % 256] + Encode(n / 256)
  {
    var m, q := Magnitude(n), Magnitude(n / 256);
    assert m == [n % 256] + q && q != [];
    assert m[|m| - 1] == q[|q| - 1];
  }

  lemma EncodeSmall(n: nat)
    requires n < 256
    ensures Encode(n) == if n == 0 then [] else if n < 128 then [n] else [n, 0]
  {
    assert n > 0 ==> Magnitude(n) == [n] + Magnitude(n / 256) && Magnitude(n / 256) == [];
  }

  /** How many bytes a number takes, up to three and beyond. */
  lemma EncodeLength(n: nat)
    ensures |Encode(n)| <= 3 <==> n < 0x80_0000
    ensures |Encode(n)| >= 3 <==> n >= 0x8000
  {
    EncodeByteLength(n);
    EncodeByteLength(n / 256);
    EncodeByteLength(n / 256 / 256);
    if n >= 256 {
      EncodeStep(n);
    }
    if n / 256 >= 256 {
      EncodeStep(n / 256);
    }
  }

  lemma EncodeByteLength(n: nat)
    ensures |Encode(n)| == 0 <==> n == 0
    ensures |Encode(n)| <= 1 <==> n < 128
  {
    if n < 256 {
      EncodeSmall(n);
    } else {
      EncodeStep(n);
      MagnitudeRoundTrip(n / 256);
    }
  }

  lemma BytesShift(c: nat, k: nat)
    ensures SizeByte(c + 0x100_0000) == SizeByte(c) + 1
    ensures CompactByte(c + 0x100_0000, k) == CompactByte(c, k)
  {
    var d := c + 0x100_0000;
    assert d / 0x1_0000 == c / 0x1_0000 + 256;
    assert d / 256 == c / 256 + 0x1_0000;
  }

  lemma CompactStep(c: nat)
    requires SizeByte(c) >= 3
    ensures CompactBytes(c + 0x100_0000) == [0] + CompactBytes(c)
  {
    var s, t := CompactBytes(c + 0x100_0000), CompactBytes(c);
    BytesShift(c, 0);
    forall i | 0 <= i < |s| ensures s[i] == ([0] + t)[i] {
      BytesShift(c, |s| - i);
    }
  }

  lemma DecodeStep(s: seq<Byte>)
    ensures Decode([0] + s) == 256 * Decode(s)
  {
    var t := [0] + s;
    if s == [] {
      assert t == [0] && t[1..] == [];
      assert FromMagnitude(t) == 0 + 256 * FromMagnitude(t[1..]);
    } else {
      var last := |s| - 1;
      assert t[last + 1] == s[last] && t[1..] == s;
      if s[last] >= 0x80 {
        assert t[last + 1 := s[last] - 0x80][1..] == s[last := s[last] - 0x80];
      }
    }
  }

  lemma ExpandStep(c: nat)
    requires SizeByte(c) >= 3
    ensures SetCompact(c + 0x100_0000) == 256 * SetCompact(c)
  {
    CompactStep(c);
    DecodeStep(CompactBytes(c));
  }

  /** A compact number of size three or more and three leading bytes stands for the number of the last 23 bits of
      these, times 256 to the size less three, negative when the first bit is set. */
  lemma {:induction false} CompactMeans(c: nat, size: nat, sign: bool, mantissa: nat)
    requires size >= 3 && mantissa < 0x80_0000
    requires c == size * 0x100_0000 + (if sign then 0x80_0000 else 0) + mantissa
    ensures SetCompact(c) == Signed(sign, mantissa * Pow256(size - 3))
    decreases size
  {
    if size == 3 {
      CompactThree(c, sign, mantissa);
      assert Pow256(size - 3) == 1;
    } else {
      var d: nat, k: nat := c - 0x100_0000, size - 1;
      CompactMeans(d, k, sign, mantissa);
      ExpandStep(d);
      SignedShift(sign, mantissa, Pow256(k - 3), Pow256(size - 3));
    }
  }

  function Signed(sign: bool, n: nat): int { if sign then 0 - n else n }

  lemma SignedShift(sign: bool, mantissa: nat, p: nat, power: nat)
    requires power == 256 * p
    ensures 256 * Signed(sign, mantissa * p) == Signed(sign, mantissa * power)
  {
    assert mantissa * power == 256 * (mantissa * p);
  }

  lemma CompactThree(c: nat, sign: bool, mantissa: nat)
    requires mantissa < 0x80_0000 && c == 3 * 0x100_0000 + (if sign then 0x80_0000 else 0) + mantissa
    ensures SetCompact(c) == Signed(sign, mantissa)
  {
    ThreeBytes(c, sign, mantissa, mantissa / 0x1_0000, mantissa / 256 % 256, mantissa % 256);
  }

  lemma ThreeBytes(c: nat, sign: bool, mantissa: nat, b1: Byte, b2: Byte, b3: Byte)
    requires b1 < 128 && mantissa == b1 * 0x1_0000 + b2 * 256 + b3
    requires c == 3 * 0x100_0000 + (if sign then 0x80_0000 else 0) + mantissa
    ensures SetCompact(c) == if sign then 0 - mantissa else mantissa
  {
    var top: Byte := if sign then 128 + b1 else b1;
    var s := [b3, b2, top];
    assert c == 3 * 0x100_0000 + top * 0x1_0000 + b2 * 256 + b3;
    CompactOfShort(s);
    assert SizeAndBytes(s) == c;
    SignMagnitude([b3, b2], top, b1);
    assert [b3, b2] + [top] == s;
    TwoBytes(b3, b2);
  }

  lemma TwoBytes(a: Byte, b: Byte)
    ensures FromMagnitude([a, b]) == a + 256 * b && Pow256(2) == 65536
  {
    assert [a, b][1..] == [b] && [b][1..] == [];
    assert FromMagnitude([b]) == b + 256 * FromMagnitude([]);
    assert Pow256(0) == 1 && Pow256(1) == 256;
  }

  lemma CompactOfShort(s: seq<Byte>)
    requires |s| <= 3
    ensures CompactBytes(SizeAndBytes(s)) == s
  {
    var c := SizeAndBytes(s);
    LeadingBytes(s, c);
    var t := CompactBytes(c);
    forall i | 0 <= i < |s| ensures t[i] == s[i] {
      assert s[i] == FromTop(s, |s| - i);
    }
  }

  lemma LeadingBytes(s: seq<Byte>, c: nat)
    requires c == SizeAndBytes(s)
    ensures SizeByte(c) == |s|
    ensures CompactByte(c, 1) == FromTop(s, 1) && CompactByte(c, 2) == FromTop(s, 2) && CompactByte(c, 3) == FromTop(s, 3)
  {
    var n, x, y, z := |s|, FromTop(s, 1), FromTop(s, 2), FromTop(s, 3);
    assert c == 256 * (256 * (256 * n + x) + y) + z;
    assert c / 256 == 256 * (256 * n + x) + y && c / 256 / 256 == 256 * n + x;
  }

  lemma SizeAndBytesStep(b: Byte, s: seq<Byte>)
    requires |s| >= 3
    ensures SizeAndBytes([b] + s) == SizeAndBytes(s) + 0x100_0000 && SizeByte(SizeAndBytes(s)) >= 3
  {
    var t := [b] + s;
    assert FromTop(t, 1) == FromTop(s, 1) && FromTop(t, 2) == FromTop(s, 2) && FromTop(t, 3) == FromTop(s, 3);
    LeadingBytes(s, SizeAndBytes(s));
  }

  lemma RoundSmall(n: nat, c: nat)
    requires n < 0x80_0000 && c == SizeAndBytes(Encode(n))
    ensures SetCompact(c) == Rounded(n)
  {
    EncodeLength(n);
    CompactOfShort(Encode(n));
    RoundTrip(n);
  }

  lemma LargeStep(n: nat, c: nat, d: nat)
    requires n >= 0x80_0000 && c == SizeAndBytes(Encode(n)) && d == SizeAndBytes(Encode(n / 256))
    ensures c == d + 0x100_0000 && SizeByte(d) >= 3
  {
    EncodeLength(n / 256);
    EncodeStep(n);
    SizeAndBytesStep(n % 256, Encode(n / 256));
  }

  lemma {:induction false} BytesRound(n: nat, c: nat)
    requires c == SizeAndBytes(Encode(n))
    ensures SetCompact(c) == Rounded(n)
    decreases n
  {
    if n < 0x80_0000 {
      RoundSmall(n, c);
    } else {
      var d := SizeAndBytes(Encode(n / 256));
      LargeStep(n, c, d);
      BytesRound(n / 256, d);
      RoundLarge(n, c, d);
    }
  }

  lemma RoundLarge(n: nat, c: nat, d: nat)
    requires n >= 0x80_0000 && c == d + 0x100_0000 && SizeByte(d) >= 3 && SetCompact(d) == Rounded(n / 256)
    ensures SetCompact(c) == Rounded(n)
  {
    ExpandStep(d);
  }

  /** Compacting and expanding clears all but the leading bytes. */
  lemma CompactRounds(n: nat)
    requires |Encode(n)| < 256
    ensures SetCompact(GetCompact(n)) == Rounded(n)
  {
    ShortCompact(Encode(n));
    BytesRound(n, GetCompact(n));
  }

  lemma ShortCompact(s: seq<Byte>)
    requires |s| < 256
    ensures SizeAndBytes(s) % 0x1_0000_0000 == SizeAndBytes(s)
  {
  }

  /** The relative loss is below 2^-15, and small numbers lose nothing. */
  lemma {:induction false} RoundingLoss(n: nat)
    ensures n < 0x8000 ==> Rounded(n) == n
    ensures n >= 0x8000 ==> (n - Rounded(n) + 1) * 0x8000 <= n
  {
    if n >= 0x80_0000 {
      RoundingLoss(n / 256);
    }
  }

  lemma {:induction false} RoundedTwice(n: nat)
    ensures Rounded(Rounded(n)) == Rounded(n)
  {
    if n >= 0x80_0000 {
      RoundedTwice(n / 256);
      var q := Rounded(n / 256);
      assert 256 * q / 256 == q;
    }
  }

  lemma {:induction false} RoundedMonotone(m: nat, n: nat)
    requires m <= n
    ensures Rounded(m) <= Rounded(n)
  {
    if n >= 0x80_0000 {
      if m >= 0x80_0000 {
        RoundedMonotone(m / 256, n / 256);
      } else {
        AtLeast(n);
      }
    }
  }

  lemma {:induction false} AtLeast(n: nat)
    requires n >= 0x80_0000
    ensures Rounded(n) >= 0x80_0000
  {
    if n / 256 >= 0x80_0000 {
      AtLeast(n / 256);
    }
  }

  /** A compact number that expands to a non-negative one is kept by compacting again. */
  lemma {:induction false} ExpandedIsExact(c: nat)
    requires SetCompact(c) >= 0
    ensures Rounded(SetCompact(c)) == SetCompact(c)
    decreases c
  {
    var n := SetCompact(c);
    if SizeByte(c) <= 3 {
      SmallCompact(c);
    } else {
      var d: nat := c - 0x100_0000;
      assert d / 0x100_0000 == c / 0x100_0000 - 1;
      ExpandStep(d);
      assert n == 256 * SetCompact(d) && n / 256 == SetCompact(d);
      ExpandedIsExact(d);
    }
  }

  lemma SmallCompact(c: nat)
    requires SizeByte(c) <= 3
    ensures SetCompact(c) < 0x80_0000
  {
    var s := CompactBytes(c);
    if s != [] {
      var last := |s| - 1;
      if s[last] < 0x80 {
        TopByte(s);
      }
    }
  }

  lemma TopByte(s: seq<Byte>)
    requires 1 <= |s| <= 3 && s[|s| - 1] < 0x80
    ensures FromMagnitude(s) < 0x80_0000
  {
    var last := |s| - 1;
    assert s == s[..last] + [s[last]];
    FromMagnitudeAppend(s[..last], s[last]);
    FromMagnitudeBound(s[..last]);
    assert Pow256(0) == 1 && Pow256(1) == 256 && Pow256(2) == 0x1_0000;
  }

  /** Compacting is idempotent through expansion, for everything 32 bits can carry. */
  lemma CompactStable(n: nat)
    requires |Encode(n)| < 256
    ensures SetCompact(GetCompact(SetCompact(GetCompact(n)))) == SetCompact(GetCompact(n))
  {
    CompactRounds(n);
    RoundedTwice(n);
    RoundedShort(n);
    CompactRounds(Rounded(n));
  }

  lemma RoundedShort(n: nat)
    ensures |Encode(Rounded(n))| <= |Encode(n)|
  {
    EncodeMonotone(Rounded(n), n);
  }

  lemma {:induction false} EncodeMonotone(m: nat, n: nat)
    requires m <= n
    ensures |Encode(m)| <= |Encode(n)|
  {
    if n < 256 {
      EncodeSmall(m);
      EncodeSmall(n);
    } else {
      EncodeStep(n);
      if m < 256 {
        EncodeSmall(m);
        EncodeByteLength(n / 256);
      } else {
        EncodeStep(m);
        EncodeMonotone(m / 256, n / 256);
      }
    }
  }

  // ----- the retarget -----

  datatype Header = Header(height: nat, time: nat, bits: nat, stake: bool)

  predicate RetargetingFixed(testNet: bool, height: nat) { testNet || height > 19935 }
  predicate ProtocolV2(testNet: bool, height: nat) { testNet || height > 20000 }
  predicate ProtocolV3(testNet: bool, time: nat) { testNet || time > 1484956800 }

  function TargetSpacing(testNet: bool, height: nat): nat { if ProtocolV2(testNet, height) then 64 else 60 }

  /** The spacing between the two blocks as the retarget takes it. */
  function Spacing(testNet: bool, last: Header, actual: int): int {
    var target := TargetSpacing(testNet, last.height);
    var a := if RetargetingFixed(testNet, last.height) && actual < 0 then target else actual;
    if ProtocolV3(testNet, last.time) && a > target * 10 then target * 10 else a
  }

  /** Division of big numbers truncates toward zero. */
  function Quotient(n: int, d: nat): int
    requires d > 0
  {
    if n >= 0 then n / d else 0 - (-n) / d
  }

  function NextTarget(prev: int, spacing: int, target: nat, limit: nat): int
    requires 0 < target
  {
    var interval := TARGET_TIMESPAN / target;
    var next := Quotient(prev * ((interval - 1) * target + spacing + spacing), (interval + 1) * target);
    if next <= 0 || next > limit then limit else next
  }

  /** The last block of a kind: the walk ends at the first block of the chain whatever its kind. */
  function LastOf(chain: seq<Header>, stake: bool): (n: nat)
    requires chain != []
    ensures n < |chain| && (n == 0 || chain[n].stake == stake) && forall k :: n < k < |chain| ==> chain[k].stake != stake
  {
    var n := |chain| - 1;
    if n == 0 || chain[n].stake == stake then n else LastOf(chain[..n], stake)
  }

  method GetLastBlockIndex(chain: seq<Header>, stake: bool) returns (n: nat)
    requires chain != []
    ensures n == LastOf(chain, stake)
  {
    n := |chain| - 1;
    assert chain[..n + 1] == chain;
    while n > 0 && chain[n].stake != stake
      invariant n < |chain| && LastOf(chain[..n + 1], stake) == LastOf(chain, stake)
    {
      assert chain[..n + 1][..n] == chain[..n];
      n := n - 1;
    }
  }

  /** The two blocks a retarget looks at. */
  ghost predicate Pair(chain: seq<Header>, stake: bool, prev: nat, prevPrev: nat) {
    && chain != [] && prev == LastOf(chain, stake) > 0
    && prevPrev == LastOf(chain[..prev], stake) > 0
  }

  /** What a retarget over the pair of blocks asks for. */
  function Required(testNet: bool, limit: nat, last: Header, prev: Header, prevPrev: Header): nat {
    GetCompact(NextTarget(SetCompact(prev.bits), Spacing(testNet, last, prev.time - prevPrev.time),
                          TargetSpacing(testNet, last.height), limit))
  }

  /** What a call ends in: a target, or a read of a block that is not there. */
  datatype Outcome = NullRead | Target(bits: nat)

  /** `GetNextTargetRequired` on the chain up to the last block. The proof-of-stake limit is looked up by the
      height of the last block before the code tests that there is one. */
  method GetNextTargetRequired(testNet: bool, limit: nat, chain: seq<Header>, stake: bool) returns (r: Outcome)
    ensures r.NullRead? <==> chain == [] && stake
    ensures r.Target? && (forall p: nat, q: nat :: !Pair(chain, stake, p, q)) ==> r.bits == GetCompact(limit)
    ensures forall p: nat, q: nat :: Pair(chain, stake, p, q) ==>
      r == Target(Required(testNet, limit, chain[|chain| - 1], chain[p], chain[q]))
  {
    if stake && chain == [] {
      return NullRead;
    }
    if chain == [] {
      return Target(GetCompact(limit));
    }
    var prev := GetLastBlockIndex(chain, stake);
    if prev == 0 {
      return Target(GetCompact(limit));
    }
    var prevPrev := GetLastBlockIndex(chain[..prev], stake);
    if prevPrev == 0 {
      return Target(GetCompact(limit));
    }
    assert Pair(chain, stake, prev, prevPrev);
    var bits := Compute(testNet, limit, chain[|chain| - 1], chain[prev], chain[prevPrev]);
    r := Target(bits);
  }

  method Compute(testNet: bool, limit: nat, last: Header, prev: Header, prevPrev: Header) returns (bits: nat)
    ensures bits == Required(testNet, limit, last, prev, prevPrev)
  {
    var target := TargetSpacing(testNet, last.height);
    var spacing := prev.time - prevPrev.time;
    if RetargetingFixed(testNet, last.height) && spacing < 0 {
      spacing := target;
    }
    if ProtocolV3(testNet, last.time) && spacing > target * 10 {
      spacing := target * 10;
    }
    bits := GetCompact(NextTarget(SetCompact(prev.bits), spacing, target, limit));
  }

  /** In the third protocol version every spacing lies between none and ten times the target of 64 s. */
  lemma SpacingRange(testNet: bool, last: Header, actual: int)
    requires ProtocolV3(testNet, last.time) && ProtocolV2(testNet, last.height)
    ensures 0 <= Spacing(testNet, last, actual) <= 640
    ensures 0 <= actual <= 640 ==> Spacing(testNet, last, actual) == actual
  {
  }

  /** The spacing that counts, in every protocol version: a negative one is on schedule from height 19936 on, and
      from the third version on ten times the schedule is the most. */
  lemma SpacingIs(testNet: bool, last: Header, actual: int)
    ensures var schedule := if testNet || last.height > 20000 then 64 else 60;
      var r := Spacing(testNet, last, actual);
      && (actual < 0 && (testNet || last.height > 19935) ==> r == schedule)
      && (actual < 0 && !testNet && last.height <= 19935 ==> r == actual)
      && (0 <= actual <= 10 * schedule ==> r == actual)
      && (actual > 10 * schedule ==> r == if testNet || last.time > 1484956800 then 10 * schedule else actual)
  {
  }

  /** The target asked for is the previous one times the weighted spacing, rounded down: fourteen parts schedule and
      two parts spacing in sixteen, or fifteen and two in seventeen with the old schedule of 60 s; the limit takes the
      place of a result that is zero or above it. */
  lemma NextTargetIs(prev: nat, spacing: nat, schedule: nat, limit: nat)
    requires schedule == 64 || schedule == 60
    ensures var whole := if schedule == 64 then 1024 else 1020;
      var weighted := prev * (if schedule == 64 then 896 + 2 * spacing else 900 + 2 * spacing);
      var next := NextTarget(prev, spacing, schedule, limit);
      if whole <= weighted && weighted < (limit + 1) * whole then next * whole <= weighted < (next + 1) * whole else next == limit
  {
    assert TARGET_TIMESPAN / 64 == 15 && TARGET_TIMESPAN / 60 == 16;
    assert (15 - 1) * 64 + spacing + spacing == 896 + 2 * spacing && (16 - 1) * 60 + spacing + spacing == 900 + 2 * spacing;
    var whole := if schedule == 64 then 1024 else 1020;
    var weighted := prev * (if schedule == 64 then 896 + 2 * spacing else 900 + 2 * spacing);
    Floor(weighted, whole, limit);
  }

  lemma Floor(n: nat, d: nat, limit: nat)
    requires d == 1024 || d == 1020
    ensures n / d * d <= n < (n / d + 1) * d
    ensures n / d > limit <==> n >= (limit + 1) * d
    ensures n / d == 0 <==> n < d
  {
  }

  lemma NextTargetV3(prev: nat, spacing: nat, limit: nat)
    ensures NextTarget(prev, spacing, 64, limit)
         == var next := prev * (896 + 2 * spacing) / 1024; if next == 0 || next > limit then limit else next
  {
    assert TARGET_TIMESPAN / 64 == 15;
    assert (15 - 1) * 64 + spacing + spacing == 896 + 2 * spacing;
  }

  lemma Factor(prev: nat, spacing: nat)
    requires spacing <= 640
    ensures 7 * prev / 8 <= prev * (896 + 2 * spacing) / 1024 <= 17 * prev / 8
    ensures prev * (896 + 2 * spacing) / 1024 == 0 <==> prev == 0 || (prev == 1 && spacing < 64)
  {
    var x := prev * spacing;
    assert prev * (896 + 2 * spacing) == 896 * prev + 2 * x;
    assert 0 <= x <= 640 * prev;
    if prev == 1 {
      assert x == spacing;
    }
    if prev > 1 {
      assert 896 * prev + 2 * x >= 1024;
    }
  }

  /** The next target in force after a retarget from an in-range one: positive, within the limit, and not
      below 7/8 of the previous target but for integer division and a loss under 2^-15. */
  lemma RetargetBounds(prev: nat, spacing: nat, limit: nat)
    requires 0 < prev <= limit < Pow256(32) && spacing <= 640
    ensures var next := SetCompact(GetCompact(NextTarget(prev, spacing, 64, limit)));
      && 0 < next <= limit
      && next * 0x8000 >= (7 * prev / 8) * 0x7fff
      && (7 * prev / 8 > 0 ==> next * 0x8000 > (7 * prev / 8) * 0x7fff)
  {
    var n := NextTarget(prev, spacing, 64, limit);
    NextTargetV3(prev, spacing, limit);
    Factor(prev, spacing);
    InForce(n, limit);
    assert n >= 7 * prev / 8;
  }

  /** What is in force is the target computed, less the rounding. */
  lemma InForce(n: nat, limit: nat)
    requires 0 < n <= limit < Pow256(32)
    ensures 0 < SetCompact(GetCompact(n)) == Rounded(n) <= n
    ensures Rounded(n) * 0x8000 > n * 0x7fff
  {
    EncodeSize(n, 32);
    CompactRounds(n);
    RoundingLoss(n);
  }

  /** The next target is at most 17/8 of the previous one, exactly when the division does not reach zero:
      a previous target of one with a short spacing jumps to the limit. */
  lemma RetargetCeiling(prev: nat, spacing: nat, limit: nat)
    requires 0 < prev <= limit < Pow256(32) && spacing <= 640 && limit >= 4
    ensures 8 * SetCompact(GetCompact(NextTarget(prev, spacing, 64, limit))) <= 17 * prev <==> prev >= 2 || spacing >= 64
  {
    var n := NextTarget(prev, spacing, 64, limit);
    NextTargetV3(prev, spacing, limit);
    Factor(prev, spacing);
    InForce(n, limit);
    if prev == 1 && spacing < 64 {
      RoundedMonotone(4, limit);
      assert Rounded(4) == 4;
    }
  }

  lemma Unchanged(prev: nat, limit: nat)
    requires 0 < prev <= limit
    ensures NextTarget(prev, 64, 64, limit) == prev
  {
    NextTargetV3(prev, 64, limit);
    assert prev * (896 + 2 * 64) == prev * 1024;
  }

  /** On schedule, the target in force stays what it was. */
  lemma OnSchedule(bits: nat, limit: nat)
    requires 0 < SetCompact(bits) <= limit < Pow256(32)
    ensures SetCompact(GetCompact(NextTarget(SetCompact(bits), 64, 64, limit))) == SetCompact(bits)
  {
    var prev: nat := SetCompact(bits);
    Unchanged(prev, limit);
    InForce(prev, limit);
    ExpandedIsExact(bits);
  }

  /** Slower blocks never make the next target smaller. */
  lemma RetargetMonotone(prev: nat, a: nat, b: nat, limit: nat)
    requires 2 <= prev <= limit < Pow256(32) && a <= b <= 640
    ensures SetCompact(GetCompact(NextTarget(prev, a, 64, limit))) <= SetCompact(GetCompact(NextTarget(prev, b, 64, limit)))
  {
    var m, n := NextTarget(prev, a, 64, limit), NextTarget(prev, b, 64, limit);
    NextTargetV3(prev, a, limit);
    NextTargetV3(prev, b, limit);
    Factor(prev, a);
    Factor(prev, b);
    SpacingMonotone(prev, a, b);
    InForce(m, limit);
    InForce(n, limit);
    RoundedMonotone(m, n);
  }

  lemma SpacingMonotone(prev: nat, a: nat, b: nat)
    requires a <= b
    ensures prev * (896 + 2 * a) / 1024 <= prev * (896 + 2 * b) / 1024
  {
    assert prev * (896 + 2 * a) <= prev * (896 + 2 * b);
  }

  /** All bounds on the target in force. */
  lemma TargetBounds(prev: nat, spacing: nat, limit: nat, next: int)
    requires 2 <= prev <= limit < Pow256(32) && limit >= 4 && spacing <= 640
    requires next == SetCompact(GetCompact(NextTarget(prev, spacing, 64, limit)))
    ensures 0 < next <= limit && 8 * next <= 17 * prev && next * 0x8000 > (7 * prev / 8) * 0x7fff
  {
    RetargetBounds(prev, spacing, limit);
    RetargetCeiling(prev, spacing, limit);
  }

  /** The spacing that a retarget in the third protocol version uses. */
  lemma RequiredIs(testNet: bool, limit: nat, last: Header, prev: Header, prevPrev: Header, target: int, spacing: int, bits: nat)
    requires ProtocolV3(testNet, last.time) && ProtocolV2(testNet, last.height) && target == SetCompact(prev.bits)
    requires spacing == Spacing(testNet, last, prev.time - prevPrev.time)
    requires bits == Required(testNet, limit, last, prev, prevPrev)
    ensures 0 <= spacing <= 640 && bits == GetCompact(NextTarget(target, spacing, 64, limit))
    ensures prev.time - prevPrev.time == 64 ==> spacing == 64
  {
    SpacingRange(testNet, last, prev.time - prevPrev.time);
  }

  lemma RequiredBounds(testNet: bool, limit: nat, last: Header, prev: Header, prevPrev: Header, target: int, bits: nat, next: int)
    requires ProtocolV3(testNet, last.time) && ProtocolV2(testNet, last.height)
    requires 2 <= target <= limit < Pow256(32) && limit >= 4 && target == SetCompact(prev.bits)
    requires bits == Required(testNet, limit, last, prev, prevPrev) && next == SetCompact(bits)
    ensures 0 < next <= limit && 8 * next <= 17 * target && next * 0x8000 > (7 * target / 8) * 0x7fff
    ensures prev.time - prevPrev.time == 64 ==> next == target
  {
    var spacing := Spacing(testNet, last, prev.time - prevPrev.time);
    RequiredIs(testNet, limit, last, prev, prevPrev, target, spacing, bits);
    TargetBounds(target, spacing, limit, next);
    if spacing == 64 {
      OnSchedule(prev.bits, limit);
    }
  }

  /** The retarget over a chain in the third protocol version. */
  lemma ChainRetarget(testNet: bool, limit: nat, chain: seq<Header>, stake: bool, p: nat, q: nat, bits: nat)
    requires Pair(chain, stake, p, q)
    requires ProtocolV3(testNet, chain[|chain| - 1].time) && ProtocolV2(testNet, chain[|chain| - 1].height)
    requires 2 <= SetCompact(chain[p].bits) <= limit < Pow256(32) && limit >= 4
    requires bits == Required(testNet, limit, chain[|chain| - 1], chain[p], chain[q])
    ensures 0 < SetCompact(bits) <= limit
    ensures 8 * SetCompact(bits) <= 17 * SetCompact(chain[p].bits)
    ensures SetCompact(bits) * 0x8000 > (7 * SetCompact(chain[p].bits) / 8) * 0x7fff
    ensures chain[p].time - chain[q].time == 64 ==> SetCompact(bits) == SetCompact(chain[p].bits)
  {
    RequiredBounds(testNet, limit, chain[|chain| - 1], chain[p], chain[q], SetCompact(chain[p].bits), bits, SetCompact(bits));
  }
}
