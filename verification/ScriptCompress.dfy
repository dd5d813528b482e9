/**
 The shorter serialization of common scripts (src/script.h:620-681, src/script.cpp:2402-2513). Key
 validity and point decompression are inputs; `Inverts` is what is assumed of them.
 */
module ScriptCompress {
  import opened BigNum
  import opened Wrappers
  import VarInt

  type Bytes = seq<Byte>
  /** `IsFullyValid` on 65 bytes. */
  type Validity = Bytes -> bool
  /** `Decompress` on 33 bytes. */
  type Expansion = Bytes -> Option<Bytes>

  const SPECIAL_SCRIPTS := 6
  const OP_DUP: Byte := 0x76
  const OP_HASH160: Byte := 0xa9
  const OP_EQUAL: Byte := 0x87
  const OP_EQUALVERIFY: Byte := 0x88
  const OP_CHECKSIG: Byte := 0xac

  /** A valid uncompressed key is found again from its first coordinate and the parity of the second, and
      what an expansion gives has 65 bytes. */
  ghost predicate Inverts(valid: Validity, expand: Expansion) {
    && (forall k {:trigger valid(k)} :: |k| == 65 && k[0] == 4 && valid(k) ==> expand([2 + k[64] % 2] + k[1..33]) == Some(k))
    && (forall k {:trigger expand(k)} :: expand(k).Some? ==> |expand(k).value| == 65)
  }

  predicate ToKeyId(s: Bytes) {
    |s| == 25 && s[0] == OP_DUP && s[1] == OP_HASH160 && s[2] == 20 && s[23] == OP_EQUALVERIFY && s[24] == OP_CHECKSIG
  }

  predicate ToScriptId(s: Bytes) {
    |s| == 23 && s[0] == OP_HASH160 && s[1] == 20 && s[22] == OP_EQUAL
  }

  predicate ToShortKey(s: Bytes) {
    |s| == 35 && s[0] == 33 && s[34] == OP_CHECKSIG && (s[1] == 2 || s[1] == 3)
  }

  predicate ToLongKey(valid: Validity, s: Bytes) {
    |s| == 67 && s[0] == 65 && s[66] == OP_CHECKSIG && s[1] == 4 && valid(s[1..66])
  }

  function Compress(valid: Validity, s: Bytes): (r: Option<Bytes>)
    ensures r.Some? ==> r.value != [] && r.value[0] < SPECIAL_SCRIPTS && |r.value| == 1 + SpecialSize(r.value[0]) < |s|
  {
    if ToKeyId(s) then Some([0] + s[3..23])
    else if ToScriptId(s) then Some([1] + s[2..22])
    else if ToShortKey(s) then Some([s[1]] + s[2..34])
    else if ToLongKey(valid, s) then Some([4 + s[65] % 2] + s[2..34])
    else None
  }

  /** The short forms: the hash or the first coordinate of the key after a byte that tells which. */
  lemma ShortForms(valid: Validity, h: Bytes, x: Bytes, k: Bytes)
    requires |h| == 20 && |x| == 32 && |k| == 65 && k[0] == 4 && valid(k)
    ensures Compress(valid, [0x76, 0xa9, 20] + h + [0x88, 0xac]) == Some([0] + h)
    ensures Compress(valid, [0xa9, 20] + h + [0x87]) == Some([1] + h)
    ensures Compress(valid, [33, 2] + x + [0xac]) == Some([2] + x) && Compress(valid, [33, 3] + x + [0xac]) == Some([3] + x)
    ensures Compress(valid, [65] + k + [0xac]) == Some([if k[64] % 2 == 0 then 4 else 5] + k[1..33])
  {
    HashForms(valid, h);
    KeyForm(valid, x, 2);
    KeyForm(valid, x, 3);
    var s := [65] + k + [0xac];
    assert s[1..66] == k && s[2..34] == k[1..33] && s[65] == k[64];
  }

  lemma HashForms(valid: Validity, h: Bytes)
    requires |h| == 20
    ensures Compress(valid, [0x76, 0xa9, 20] + h + [0x88, 0xac]) == Some([0] + h)
    ensures Compress(valid, [0xa9, 20] + h + [0x87]) == Some([1] + h)
  {
    var s, t := [0x76, 0xa9, 20] + h + [0x88, 0xac], [0xa9, 20] + h + [0x87];
    assert s[3..23] == h && t[2..22] == h;
  }

  lemma KeyForm(valid: Validity, x: Bytes, parity: Byte)
    requires |x| == 32 && (parity == 2 || parity == 3)
    ensures Compress(valid, [33, parity] + x + [0xac]) == Some([parity] + x)
  {
    var s := [33, parity] + x + [0xac];
    assert s[2..34] == x;
  }

  predicate PaysToHash(s: Bytes, h: Bytes) { |h| == 20 && (s == [0x76, 0xa9, 20] + h + [0x88, 0xac] || s == [0xa9, 20] + h + [0x87]) }

  predicate PaysToShort(s: Bytes, x: Bytes) { |x| == 32 && (s == [33, 2] + x + [0xac] || s == [33, 3] + x + [0xac]) }

  predicate PaysToLong(valid: Validity, s: Bytes, k: Bytes) { |k| == 65 && k[0] == 4 && valid(k) && s == [65] + k + [0xac] }

  /** No other script has one. */
  lemma OnlySpecial(valid: Validity, s: Bytes)
    requires Compress(valid, s).Some?
    ensures (exists h :: PaysToHash(s, h)) || (exists x :: PaysToShort(s, x)) || (exists k :: PaysToLong(valid, s, k))
  {
    if ToKeyId(s) {
      assert s == [0x76, 0xa9, 20] + s[3..23] + [0x88, 0xac];
      assert PaysToHash(s, s[3..23]);
    } else if ToScriptId(s) {
      assert s == [0xa9, 20] + s[2..22] + [0x87];
      assert PaysToHash(s, s[2..22]);
    } else if ToShortKey(s) {
      assert s == [33, s[1]] + s[2..34] + [0xac];
      assert PaysToShort(s, s[2..34]);
    } else {
      assert s == [65] + s[1..66] + [0xac];
      assert PaysToLong(valid, s, s[1..66]);
    }
  }

  function SpecialSize(n: nat): nat {
    if n <= 1 then 20 else if n <= 5 then 32 else 0
  }

  function Decompress(expand: Expansion, n: nat, data: Bytes): (r: Option<Bytes>)
    requires n < SPECIAL_SCRIPTS && |data| == SpecialSize(n)
  {
    if n == 0 then Some([OP_DUP, OP_HASH160, 20] + data + [OP_EQUALVERIFY, OP_CHECKSIG])
    else if n == 1 then Some([OP_HASH160, 20] + data + [OP_EQUAL])
    else if n <= 3 then Some([33, n] + data + [OP_CHECKSIG])
    else
      match expand([n - 2] + data)
      case None => None
      case Some(key) => Some([65] + key + [OP_CHECKSIG])
  }

  /** Decompression undoes compression on every script that has a short form. */
  lemma DecompressCompress(valid: Validity, expand: Expansion, s: Bytes)
    requires Inverts(valid, expand) && Compress(valid, s).Some?
    ensures var c := Compress(valid, s).value; Decompress(expand, c[0], c[1..]) == Some(s)
  {
    var c := Compress(valid, s).value;
    if ToKeyId(s) {
      assert s == [s[0], s[1], s[2]] + s[3..23] + [s[23], s[24]];
    } else if ToScriptId(s) {
      assert s == [s[0], s[1]] + s[2..22] + [s[22]];
    } else if ToShortKey(s) {
      assert s == [s[0], s[1]] + s[2..34] + [s[34]];
    } else {
      LongKey(valid, expand, s);
      assert c[1..] == s[2..34];
      assert s == [s[0]] + s[1..66] + [s[66]];
    }
  }

  lemma LongKey(valid: Validity, expand: Expansion, s: Bytes)
    requires Inverts(valid, expand) && ToLongKey(valid, s)
    ensures expand([2 + s[65] % 2] + s[2..34]) == Some(s[1..66])
  {
    var k := s[1..66];
    assert valid(k) && k[64] == s[65] && k[1..33] == s[2..34];
  }

  // ----- the stream form -----

  /** The length prefix is a 32-bit number on both sides. */
  function Serialize(valid: Validity, s: Bytes): Bytes {
    match Compress(valid, s)
    case Some(c) => c
    case None => VarInt.Write((|s| + SPECIAL_SCRIPTS) % VarInt.Range(32)) + s
  }

  /** Read into a script that had the content `before`: a key that does not expand leaves it. */
  function Unserialize(expand: Expansion, s: Bytes, before: Bytes): (r: Option<(Bytes, Bytes)>) {
    match VarInt.Read(s)
    case None => None
    case Some((exact, rest)) =>
      var n := exact % VarInt.Range(32);
      if n < SPECIAL_SCRIPTS then
        var k := SpecialSize(n);
        if |rest| < k then None
        else
          match Decompress(expand, n, rest[..k])
          case None => Some((before, rest[k..]))
          case Some(script) => Some((script, rest[k..]))
      else
        var k: nat := n - SPECIAL_SCRIPTS;
        if |rest| < k then None else Some((rest[..k], rest[k..]))
  }

  /** Every script whose length the prefix can carry comes back, whatever follows it in the stream and whatever it is read into. */
  lemma RoundTrip(valid: Validity, expand: Expansion, s: Bytes, rest: Bytes, before: Bytes)
    requires Inverts(valid, expand) && |s| + SPECIAL_SCRIPTS < VarInt.Range(32)
    ensures Unserialize(expand, Serialize(valid, s) + rest, before) == Some((s, rest))
  {
    match Compress(valid, s)
    case Some(c) => SpecialBack(valid, expand, s, c, rest, before);
    case None => PlainBack(valid, expand, s, rest, before);
  }

  lemma SpecialBack(valid: Validity, expand: Expansion, s: Bytes, c: Bytes, rest: Bytes, before: Bytes)
    requires Inverts(valid, expand) && Compress(valid, s) == Some(c)
    ensures Unserialize(expand, c + rest, before) == Some((s, rest))
  {
    DecompressCompress(valid, expand, s);
    ReadSpecial(expand, c, rest, before);
  }

  lemma PlainBack(valid: Validity, expand: Expansion, s: Bytes, rest: Bytes, before: Bytes)
    requires |s| + SPECIAL_SCRIPTS < VarInt.Range(32) && Compress(valid, s).None?
    ensures Unserialize(expand, Serialize(valid, s) + rest, before) == Some((s, rest))
  {
    var n := |s| + SPECIAL_SCRIPTS;
    VarInt.FitsIff(32, n);
    ReadPlain(expand, s, rest, before);
  }

  lemma ReadPlain(expand: Expansion, s: Bytes, rest: Bytes, before: Bytes)
    requires |s| + SPECIAL_SCRIPTS < VarInt.Range(32)
    ensures Unserialize(expand, (VarInt.Write(|s| + SPECIAL_SCRIPTS) + s) + rest, before) == Some((s, rest))
  {
    var n := |s| + SPECIAL_SCRIPTS;
    assert (VarInt.Write(n) + s) + rest == VarInt.Write(n) + (s + rest);
    VarInt.ReadWrite(n, s + rest);
    VarInt.FitsIff(32, n);
    assert (s + rest)[..|s|] == s && (s + rest)[|s|..] == rest;
  }

  lemma ReadSpecial(expand: Expansion, c: Bytes, rest: Bytes, before: Bytes)
    requires c != [] && c[0] < SPECIAL_SCRIPTS && |c| == 1 + SpecialSize(c[0])
    ensures var d := Decompress(expand, c[0], c[1..]);
      d.Some? ==> Unserialize(expand, c + rest, before) == Some((d.value, rest))
  {
    Special(c, rest);
    assert c[0] % VarInt.Range(32) == c[0];
  }

  lemma Special(c: Bytes, rest: Bytes)
    requires c != [] && c[0] < SPECIAL_SCRIPTS
    ensures VarInt.Read(c + rest) == Some((c[0] as nat, c[1..] + rest))
    ensures (c[1..] + rest)[..|c| - 1] == c[1..] && (c[1..] + rest)[|c| - 1..] == rest
  {
    assert VarInt.Write(c[0]) == [c[0]];
    assert c + rest == [c[0]] + (c[1..] + rest);
    VarInt.ReadWrite(c[0], c[1..] + rest);
  }

  /** Distinct scripts have distinct serializations, and none is a prefix of another's. */
  lemma PrefixFree(valid: Validity, expand: Expansion, s: Bytes, t: Bytes)
    requires |s| + SPECIAL_SCRIPTS < VarInt.Range(32) && |t| + SPECIAL_SCRIPTS < VarInt.Range(32)
    requires Inverts(valid, expand) && Serialize(valid, s) <= Serialize(valid, t)
    ensures s == t
  {
    var a, b := Serialize(valid, s), Serialize(valid, t);
    RoundTrip(valid, expand, s, b[|a|..], []);
    RoundTrip(valid, expand, t, [], []);
    assert b == a + b[|a|..] && b + [] == b;
  }

  /** The announced size: `GetSerializeSize`, whose length prefix is a 32-bit VarInt. */
  method SerializeSize(valid: Validity, s: Bytes) returns (size: nat)
    requires |s| + SPECIAL_SCRIPTS < VarInt.Range(32)
    ensures size == |Serialize(valid, s)| <= |s| + 5
  {
    var c := Compress(valid, s);
    if c.Some? {
      return |c.value|;
    }
    var n := VarInt.GetSizeOfVarInt(|s| + SPECIAL_SCRIPTS);
    VarInt.BufferFits(32, |s| + SPECIAL_SCRIPTS);
    return |s| + n;
  }
}
