/**
 What the script operations mean, on stacks written out element by element (src/script.cpp:552-1307).
 */
module ScriptLaws {
  import opened BigNum
  import opened ScriptCode
  import opened Multisig
  import opened Wrappers
  import opened ScriptMachine

  /** One executed operation without data. */
  function Do(env: Env, m: Machine, code: Byte): Option<Machine> { Exec(env, m, Instr(Op(code, []), 0)) }

  /** It leaves this main stack and nothing else changed. */
  predicate Leaves(env: Env, m: Machine, code: Byte, st: seq<Elem>) { Do(env, m, code) == Some(m.(stack := st)) }

  // ----- true and false -----

  lemma {:induction false} ZeroBytes(s: seq<Byte>)
    ensures FromMagnitude(s) == 0 <==> forall i :: 0 <= i < |s| ==> s[i] == 0
  {
    if s != [] {
      ZeroBytes(s[1..]);
      assert forall i :: 0 < i < |s| ==> s[i] == s[1..][i - 1];
    }
  }

  /** An element is true exactly when the number it denotes is not zero. */
  lemma TrueIsNonzero(e: Elem)
    ensures CastToBool(e) <==> Decode(e) != 0
  {
    if e != [] {
      var last := |e| - 1;
      var t := if e[last] >= 0x80 then e[last := e[last] - 0x80] else e;
      ZeroBytes(t);
      if CastToBool(e) {
        var i :| 0 <= i < |e| && e[i] != 0 && !(i == last && e[i] == 0x80);
        assert t[i] != 0;
      } else {
        forall i | 0 <= i < |t| ensures t[i] == 0 { assert e[i] == 0 || (i == last && e[i] == 0x80); }
      }
    }
  }

  lemma BoolIs(b: bool)
    ensures Bool(b) == (if b then [1] else []) && (CastToBool(Bool(b)) <==> b)
  {
    if b { assert Bool(b)[0] == 1; }
  }

  // ----- pushing -----

  /** The small-number operations push the element of their number, -1 to 16; other pushes push their data. */
  lemma PushesNumber(env: Env, m: Machine, op: Op, end: nat)
    ensures op.code == 0x4f || 0x51 <= op.code <= 0x60 ==>
      var r := Exec(env, m, Instr(op, end));
      r.Some? && |r.value.stack| == |m.stack| + 1 && r.value == m.(stack := m.stack + [Top(r.value.stack, 1)])
      && Decode(Top(r.value.stack, 1)) == if op.code == 0x4f then -1 else op.code - 0x50
    ensures op.code <= 0x4e ==> Exec(env, m, Instr(op, end)) == Some(m.(stack := m.stack + [op.data]))
  {
    RoundTrip(op.code - 0x50);
  }

  // ----- the stack diagrams -----

  /** The operations on one to three elements, as the diagrams write them. */
  lemma ShortDiagrams(env: Env, m: Machine, s: seq<Elem>, a: Elem, b: Elem, c: Elem)
    ensures m.stack == s + [a] ==> Leaves(env, m, 0x75, s) && Leaves(env, m, 0x76, s + [a, a])
    ensures m.stack == s + [a] ==> Leaves(env, m, 0x73, if Decode(a) != 0 then s + [a, a] else s + [a])
    ensures m.stack == s + [a, b] ==> Leaves(env, m, 0x6d, s) && Leaves(env, m, 0x6e, s + [a, b, a, b])
    ensures m.stack == s + [a, b] ==> Leaves(env, m, 0x77, s + [b]) && Leaves(env, m, 0x78, s + [a, b, a])
    ensures m.stack == s + [a, b] ==> Leaves(env, m, 0x7c, s + [b, a]) && Leaves(env, m, 0x7d, s + [b, a, b])
    ensures m.stack == s + [a, b, c] ==> Leaves(env, m, 0x6f, s + [a, b, c, a, b, c]) && Leaves(env, m, 0x7b, s + [b, c, a])
  {
    TrueIsNonzero(a);
    if m.stack == s + [a] { OneElement(env, m, s, a); }
    if m.stack == s + [a, b] { TwoElements(env, m, s, a, b); }
    if m.stack == s + [a, b, c] { ThreeElements(env, m, s, a, b, c); }
  }

  lemma OneElement(env: Env, m: Machine, s: seq<Elem>, a: Elem)
    requires m.stack == s + [a]
    ensures Leaves(env, m, 0x75, s) && Leaves(env, m, 0x76, s + [a, a])
    ensures Leaves(env, m, 0x73, if CastToBool(a) then s + [a, a] else s + [a])
  {
    assert Drop(m.stack, 1) == s && m.stack + [a] == s + [a, a];
  }

  lemma TwoElements(env: Env, m: Machine, s: seq<Elem>, a: Elem, b: Elem)
    requires m.stack == s + [a, b]
    ensures Leaves(env, m, 0x6d, s) && Leaves(env, m, 0x6e, s + [a, b, a, b])
    ensures Leaves(env, m, 0x77, s + [b]) && Leaves(env, m, 0x78, s + [a, b, a])
    ensures Leaves(env, m, 0x7c, s + [b, a]) && Leaves(env, m, 0x7d, s + [b, a, b])
  {
    assert Drop(m.stack, 2) == s && Top(m.stack, 1) == b && Top(m.stack, 2) == a;
    assert m.stack + [a, b] == s + [a, b, a, b] && m.stack + [a] == s + [a, b, a];
  }

  lemma ThreeElements(env: Env, m: Machine, s: seq<Elem>, a: Elem, b: Elem, c: Elem)
    requires m.stack == s + [a, b, c]
    ensures Leaves(env, m, 0x6f, s + [a, b, c, a, b, c]) && Leaves(env, m, 0x7b, s + [b, c, a])
  {
    assert Drop(m.stack, 3) == s && Top(m.stack, 1) == c && Top(m.stack, 2) == b && Top(m.stack, 3) == a;
    assert m.stack + [a, b, c] == s + [a, b, c, a, b, c];
  }

  /** OP_2OVER, OP_2SWAP and OP_2ROT. */
  lemma LongDiagrams(env: Env, m: Machine, s: seq<Elem>, a: Elem, b: Elem, c: Elem, d: Elem, e: Elem, f: Elem)
    ensures m.stack == s + [a, b, c, d] ==> Leaves(env, m, 0x70, s + [a, b, c, d, a, b]) && Leaves(env, m, 0x72, s + [c, d, a, b])
    ensures m.stack == s + [a, b, c, d, e, f] ==> Leaves(env, m, 0x71, s + [c, d, e, f, a, b])
  {
    if m.stack == s + [a, b, c, d] {
      assert Drop(m.stack, 4) == s && Top(m.stack, 1) == d && Top(m.stack, 2) == c && Top(m.stack, 3) == b && Top(m.stack, 4) == a;
      assert m.stack + [a, b] == s + [a, b, c, d, a, b];
    }
    if m.stack == s + [a, b, c, d, e, f] {
      assert Drop(m.stack, 6) == s && Top(m.stack, 6) == a && Top(m.stack, 5) == b;
      assert m.stack[|m.stack| - 4..] == [c, d, e, f];
      assert s + [c, d, e, f] + [a, b] == s + [c, d, e, f, a, b];
    }
  }

  /** How many elements an operation on the main stack needs. */
  function Needs(code: Byte): nat {
    if code == 0x75 || code == 0x76 || code == 0x73 || code == 0x82 then 1
    else if code == 0x6d || code == 0x6e || code == 0x77 || code == 0x78 || code == 0x7c || code == 0x7d then 2
    else if code == 0x6f || code == 0x7b then 3
    else if code == 0x70 || code == 0x72 then 4
    else if code == 0x71 then 6 else 0
  }

  /** With fewer elements it fails, and otherwise never. */
  lemma Underflow(env: Env, m: Machine, code: Byte)
    requires 0x6d <= code <= 0x78 || 0x7b <= code <= 0x7d || code == 0x82
    ensures Do(env, m, code).Some? <==> |m.stack| >= Needs(code)
  {
  }

  /** Swapping twice and rotating three times change nothing. */
  lemma SwapAndRotate(env: Env, m: Machine)
    ensures |m.stack| >= 2 ==> Do(env, m, 0x7c).Some? && Do(env, Do(env, m, 0x7c).value, 0x7c) == Some(m)
    ensures |m.stack| >= 3 ==>
      var m1 := Do(env, m, 0x7b); m1.Some? && var m2 := Do(env, m1.value, 0x7b); m2.Some? && Do(env, m2.value, 0x7b) == Some(m)
  {
    var n := |m.stack|;
    if n >= 2 {
      var s, a, b := m.stack[..n - 2], m.stack[n - 2], m.stack[n - 1];
      assert m.stack == s + [a, b];
      TwoElements(env, m, s, a, b);
      TwoElements(env, m.(stack := s + [b, a]), s, b, a);
    }
    if n >= 3 {
      var s, a, b, c := m.stack[..n - 3], m.stack[n - 3], m.stack[n - 2], m.stack[n - 1];
      assert m.stack == s + [a, b, c];
      ThreeElements(env, m, s, a, b, c);
      ThreeElements(env, m.(stack := s + [b, c, a]), s, b, c, a);
      ThreeElements(env, m.(stack := s + [c, a, b]), s, c, a, b);
    }
  }

  /** OP_TOALTSTACK and OP_FROMALTSTACK are inverse to each other. */
  lemma AltStack(env: Env, m: Machine)
    ensures Do(env, m, 0x6b).Some? <==> m.stack != []
    ensures m.stack != [] ==>
      var r := Do(env, m, 0x6b).value;
      r.stack + [r.alt[|r.alt| - 1]] == m.stack && r.alt == m.alt + [m.stack[|m.stack| - 1]] && Do(env, r, 0x6c) == Some(m)
    ensures Do(env, m, 0x6c).Some? <==> m.alt != []
    ensures m.alt != [] ==> Do(env, Do(env, m, 0x6c).value, 0x6b) == Some(m)
  {
    if m.stack != [] {
      var s, e := Drop(m.stack, 1), Top(m.stack, 1);
      assert m.stack == s + [e];
      ToAlt(env, m, s, e);
      FromAlt(env, m.(stack := s, alt := m.alt + [e]), m.alt, e);
    }
    if m.alt != [] {
      var t, e := Drop(m.alt, 1), Top(m.alt, 1);
      assert m.alt == t + [e];
      FromAlt(env, m, t, e);
      ToAlt(env, m.(stack := m.stack + [e], alt := t), m.stack, e);
    }
  }

  lemma ToAlt(env: Env, m: Machine, s: seq<Elem>, e: Elem)
    requires m.stack == s + [e]
    ensures Do(env, m, 0x6b) == Some(m.(stack := s, alt := m.alt + [e]))
  {
    assert Drop(m.stack, 1) == s;
  }

  lemma FromAlt(env: Env, m: Machine, t: seq<Elem>, e: Elem)
    requires m.alt == t + [e]
    ensures Do(env, m, 0x6c) == Some(m.(stack := m.stack + [e], alt := t))
  {
    assert Drop(m.alt, 1) == t;
  }

  /** OP_DEPTH and OP_SIZE push the number of elements, and of the bytes of the top one. */
  lemma Sizes(env: Env, m: Machine)
    ensures exists x :: Leaves(env, m, 0x74, m.stack + [x]) && Decode(x) == |m.stack|
    ensures m.stack != [] ==> exists x :: Leaves(env, m, 0x82, m.stack + [x]) && Decode(x) == |m.stack[|m.stack| - 1]|
  {
    RoundTrip(|m.stack|);
    assert Leaves(env, m, 0x74, m.stack + [Encode(|m.stack|)]);
    if m.stack != [] {
      RoundTrip(|Top(m.stack, 1)|);
      assert Leaves(env, m, 0x82, m.stack + [Encode(|Top(m.stack, 1)|)]);
    }
  }

  /** OP_PICK copies the element that has t above it, and OP_ROLL moves it. */
  lemma PickAndRoll(env: Env, m: Machine, s: seq<Elem>, e: Elem, t: seq<Elem>, n: Elem)
    requires m.stack == s + [e] + t + [n] && |n| <= 4 && Decode(n) == |t|
    ensures Leaves(env, m, 0x79, s + [e] + t + [e]) && Leaves(env, m, 0x7a, s + t + [e])
  {
    var rest := s + [e] + t;
    assert Drop(m.stack, 1) == rest && Top(m.stack, 1) == n;
    assert Top(rest, |t| + 1) == e && rest[..|rest| - |t| - 1] == s && rest[|rest| - |t|..] == t;
  }

  /** Both fail on a number that is too long, negative, or not below the number of elements left. */
  lemma PickRefuses(env: Env, m: Machine, s: seq<Elem>, n: Elem)
    requires m.stack == s + [n] && (|n| > 4 || Decode(n) < 0 || Decode(n) >= |s|)
    ensures Do(env, m, 0x79).None? && Do(env, m, 0x7a).None?
  {
    BadPick(m.stack, s, n, false);
    BadPick(m.stack, s, n, true);
  }

  lemma BadPick(st: seq<Elem>, s: seq<Elem>, n: Elem, roll: bool)
    requires st == s + [n] && (|n| > 4 || Decode(n) < 0 || Decode(n) >= |s|)
    ensures PickOp(st, roll).None?
  {
    assert Top(st, 1) == n && |Drop(st, 1)| == |s|;
    if |n| <= 4 { assert Number(n, 4) == Some(Decode(n)); }
  }

  // ----- comparison, conditions and numbers -----

  /** OP_EQUAL compares bytes; OP_EQUALVERIFY goes on exactly when they are equal. */
  lemma Equality(env: Env, m: Machine, s: seq<Elem>, a: Elem, b: Elem)
    requires m.stack == s + [a, b]
    ensures Leaves(env, m, 0x87, s + [if a == b then [1] else []])
    ensures if a == b then Leaves(env, m, 0x88, s) else Do(env, m, 0x88).None?
  {
    assert Drop(m.stack, 2) == s && Top(m.stack, 1) == b && Top(m.stack, 2) == a;
    BoolIs(a == b);
  }

  /** OP_VERIFY goes on exactly when the top element is not zero; OP_RETURN never does. */
  lemma Verify(env: Env, m: Machine)
    ensures Do(env, m, 0x69).Some? <==> m.stack != [] && Decode(m.stack[|m.stack| - 1]) != 0
    ensures Do(env, m, 0x69).Some? ==> Leaves(env, m, 0x69, m.stack[..|m.stack| - 1])
    ensures Do(env, m, 0x6a).None? && Do(env, m, 0x61) == Some(m)
  {
    if m.stack != [] { TrueIsNonzero(Top(m.stack, 1)); }
  }

  /** Numeric operands of more than four bytes end evaluation. */
  lemma LongOperands(env: Env, m: Machine, code: Byte)
    requires 0x8b <= code <= 0xa5
    ensures m.stack == [] || |m.stack[|m.stack| - 1]| > 4 ==> Do(env, m, code).None?
    ensures code >= 0x93 && (|m.stack| < 2 || |m.stack[|m.stack| - 2]| > 4) ==> Do(env, m, code).None?
    ensures code == 0xa5 && (|m.stack| < 3 || |m.stack[|m.stack| - 3]| > 4) ==> Do(env, m, code).None?
  {
  }

  /** The operations on one number. */
  lemma UnaryMeans(env: Env, m: Machine, s: seq<Elem>, a: Elem, code: Byte)
    requires m.stack == s + [a] && |a| <= 4 && (code == 0x8b || code == 0x8c || 0x8f <= code <= 0x92)
    ensures exists x :: Leaves(env, m, code, s + [x]) && var n := Decode(a);
      && (code == 0x8b ==> Decode(x) - 1 == n) && (code == 0x8c ==> Decode(x) + 1 == n)
      && (code == 0x8f ==> Decode(x) + n == 0) && (code == 0x90 ==> Decode(x) >= 0 && (Decode(x) == n || Decode(x) == -n))
      && (code == 0x91 ==> (CastToBool(x) <==> n == 0)) && (code == 0x92 ==> (CastToBool(x) <==> n != 0))
  {
    assert Drop(m.stack, 1) == s && Top(m.stack, 1) == a;
    var r := Unary(code, Decode(a)).value;
    RoundTrip(r);
    TrueIsNonzero(Encode(r));
    assert Leaves(env, m, code, s + [Encode(r)]);
  }

  /** The operations on two numbers: sums and differences, and the relations of the two. */
  lemma BinaryMeans(env: Env, m: Machine, s: seq<Elem>, a: Elem, b: Elem, code: Byte)
    requires m.stack == s + [a, b] && |a| <= 4 && |b| <= 4
    requires code == 0x93 || code == 0x94 || code == 0x9a || code == 0x9b || code == 0x9c || 0x9e <= code <= 0xa4
    ensures exists x :: Leaves(env, m, code, s + [x]) && var p, q := Decode(a), Decode(b);
      && (code == 0x93 ==> Decode(x) - q == p) && (code == 0x94 ==> Decode(x) + q == p)
      && (code == 0x9a ==> (CastToBool(x) <==> p != 0 && q != 0)) && (code == 0x9b ==> (CastToBool(x) <==> p != 0 || q != 0))
      && (code == 0x9c ==> (CastToBool(x) <==> p == q)) && (code == 0x9e ==> (CastToBool(x) <==> p != q))
      && (code == 0x9f ==> (CastToBool(x) <==> p < q)) && (code == 0xa0 ==> (CastToBool(x) <==> p > q))
      && (code == 0xa1 ==> (CastToBool(x) <==> p <= q)) && (code == 0xa2 ==> (CastToBool(x) <==> p >= q))
      && (code == 0xa3 ==> Decode(x) <= p && Decode(x) <= q && (Decode(x) == p || Decode(x) == q))
      && (code == 0xa4 ==> Decode(x) >= p && Decode(x) >= q && (Decode(x) == p || Decode(x) == q))
  {
    var x := Encode(Binary(code, Decode(a), Decode(b)).value);
    BinaryLeaves(env, m, s, a, b, code, x);
    RoundTrip(Binary(code, Decode(a), Decode(b)).value);
    TrueIsNonzero(x);
    assert Leaves(env, m, code, s + [x]);
  }

  lemma BinaryLeaves(env: Env, m: Machine, s: seq<Elem>, a: Elem, b: Elem, code: Byte, x: Elem)
    requires m.stack == s + [a, b] && |a| <= 4 && |b| <= 4 && 0x93 <= code <= 0xa4 && code != 0x9d
    requires Binary(code, Decode(a), Decode(b)).Some? && x == Encode(Binary(code, Decode(a), Decode(b)).value)
    ensures Leaves(env, m, code, s + [x])
  {
    assert Drop(m.stack, 2) == s && Top(m.stack, 1) == b && Top(m.stack, 2) == a;
  }

  /** OP_NUMEQUALVERIFY goes on exactly when the numbers are equal. */
  lemma NumbersEqual(env: Env, m: Machine, s: seq<Elem>, a: Elem, b: Elem)
    requires m.stack == s + [a, b] && |a| <= 4 && |b| <= 4
    ensures if Decode(a) == Decode(b) then Leaves(env, m, 0x9d, s) else Do(env, m, 0x9d).None?
  {
    assert Drop(m.stack, 2) == s && Top(m.stack, 1) == b && Top(m.stack, 2) == a;
    var r := B2I(Decode(a) == Decode(b));
    RoundTrip(r);
    TrueIsNonzero(Encode(r));
  }

  /** OP_WITHIN: the lower bound is in, the upper one is out. */
  lemma Within(env: Env, m: Machine, s: seq<Elem>, x: Elem, lo: Elem, hi: Elem)
    requires m.stack == s + [x, lo, hi] && |x| <= 4 && |lo| <= 4 && |hi| <= 4
    ensures Leaves(env, m, 0xa5, s + [if Decode(lo) <= Decode(x) && Decode(x) < Decode(hi) then [1] else []])
  {
    assert Drop(m.stack, 3) == s && Top(m.stack, 1) == hi && Top(m.stack, 2) == lo && Top(m.stack, 3) == x;
    BoolIs(Decode(lo) <= Decode(x) < Decode(hi));
  }

  /** The hash operations replace the top element by its hash of 20 or 32 bytes. */
  lemma Hashes(env: Env, m: Machine, s: seq<Elem>, a: Elem, code: Byte)
    requires m.stack == s + [a] && 0xa6 <= code <= 0xaa
    ensures code == 0xa6 || code == 0xa7 || code == 0xa9 ==> Leaves(env, m, code, s + [env.hash20(code, a)])
    ensures code == 0xa8 || code == 0xaa ==> Leaves(env, m, code, s + [env.hash32(code, a)])
  {
    assert Drop(m.stack, 1) == s && Top(m.stack, 1) == a;
  }

  /** OP_CHECKLOCKTIMEVERIFY changes nothing. Where enabled, it goes on exactly when the input is not final and the
      top element, of at most five bytes, is a time of the transaction's kind that the transaction's has reached. */
  lemma LockTimes(env: Env, m: Machine)
    requires env.checkLockTime
    ensures Do(env, m, 0xb1).Some? ==> Do(env, m, 0xb1) == Some(m)
    ensures Do(env, m, 0xb1).Some? <==>
      && m.stack != [] && |m.stack[|m.stack| - 1]| <= 5 && !env.inputFinal
      && var n := Decode(m.stack[|m.stack| - 1]);
         0 <= n <= env.txLockTime && (env.txLockTime >= LOCKTIME_THRESHOLD ==> n >= LOCKTIME_THRESHOLD)
  {
  }

  // ----- signatures -----

  /** OP_CHECKSIG: true exactly when signature and key are well formed and the signature is valid for the code it
      covers; with strict encoding malformed ones end evaluation. OP_CHECKSIGVERIFY goes on exactly when true. */
  lemma CheckSig(env: Env, m: Machine, s: seq<Elem>, sig: Elem, key: Elem)
    requires m.stack == s + [sig, key]
    ensures var formed := env.signatureWellFormed(sig) && env.keyWellFormed(key);
      var ok := formed && env.signatureValid(sig, key, SignedCode(env.script, m.codeStart, [sig]));
      if env.strictEncoding && !formed then Do(env, m, 0xac).None? && Do(env, m, 0xad).None?
      else Leaves(env, m, 0xac, s + [if ok then [1] else []]) && (if ok then Leaves(env, m, 0xad, s) else Do(env, m, 0xad).None?)
  {
    assert Drop(m.stack, 2) == s && Top(m.stack, 1) == key && Top(m.stack, 2) == sig;
    BoolIs(Verifies(env, SignedCode(env.script, m.codeStart, [sig]))(sig, key));
  }

  /** Removing the push of each signature from a list of operations. */
  function WithoutAll(ops: seq<Op>, sigs: seq<Elem>): seq<Op>
    requires forall i :: 0 <= i < |sigs| ==> |sigs[i]| < Pow256(4)
  {
    if sigs == [] then ops else Without(WithoutAll(ops, sigs[..|sigs| - 1]), PushOp(sigs[|sigs| - 1]))
  }

  lemma {:induction false} WithoutIs(ops: seq<Op>, op: Op)
    ensures op !in Without(ops, op) && forall o :: o in Without(ops, op) <==> o in ops && o != op
  {
    if ops != [] {
      WithoutIs(ops[1..], op);
      assert ops == [ops[0]] + ops[1..];
    }
  }

  /** What is left are the operations that push none of the signatures. */
  lemma {:induction false} WithoutAllIs(ops: seq<Op>, sigs: seq<Elem>)
    requires forall i :: 0 <= i < |sigs| ==> |sigs[i]| < Pow256(4)
    ensures forall o :: o in WithoutAll(ops, sigs) <==> o in ops && forall i :: 0 <= i < |sigs| ==> o != PushOp(sigs[i])
    decreases |sigs|
  {
    if sigs != [] {
      WithoutAllIs(ops, sigs[..|sigs| - 1]);
      WithoutIs(WithoutAll(ops, sigs[..|sigs| - 1]), PushOp(sigs[|sigs| - 1]));
    }
  }

  /** The code that signatures cover: the script from the last separator on, without their pushes. */
  lemma {:induction false} SignedCodeIs(script: Script, from: nat, sigs: seq<Elem>)
    requires from <= |script| && forall i :: 0 <= i < |sigs| ==> |sigs[i]| < Pow256(4)
    ensures var code := Parse(SignedCode(script, from, sigs));
      code.ops == WithoutAll(Parse(script[from..]).ops, sigs) && code.tail == Parse(script[from..]).tail
    ensures forall i :: 0 <= i < |Parse(SignedCode(script, from, sigs)).ops| ==> Encodable(Parse(SignedCode(script, from, sigs)).ops[i])
    ensures GetOp(Parse(SignedCode(script, from, sigs)).tail, 0).Failed?
    decreases |sigs|
  {
    if sigs == [] {
      PrintParse(script[from..]);
    } else {
      var front, sig := sigs[..|sigs| - 1], sigs[|sigs| - 1];
      SignedCodeIs(script, from, front);
      var code := Parse(SignedCode(script, from, front));
      WithoutIs(code.ops, PushOp(sig));
      EncodableLeft(code.ops, PushOp(sig), Without(code.ops, PushOp(sig)));
      ParsePrint(Without(code.ops, PushOp(sig)), code.tail);
    }
  }

  lemma EncodableLeft(ops: seq<Op>, op: Op, left: seq<Op>)
    requires (forall i :: 0 <= i < |ops| ==> Encodable(ops[i])) && forall o :: o in left <==> o in ops && o != op
    ensures forall i :: 0 <= i < |left| ==> Encodable(left[i])
  {
    forall i | 0 <= i < |left| ensures Encodable(left[i]) {
      assert left[i] in ops;
    }
  }

  /** The arguments of OP_CHECKMULTISIG, bottom to top. */
  predicate Spells(st: seq<Elem>, s: seq<Elem>, dummy: Elem, sigs: seq<Elem>, nSigs: Elem, keys: seq<Elem>, nKeys: Elem) {
    && st == s + [dummy] + sigs + [nSigs] + keys + [nKeys]
    && |nSigs| <= 4 && Decode(nSigs) == |sigs| && |nKeys| <= 4 && Decode(nKeys) == |keys|
  }

  lemma SpelledArguments(m: Machine, s: seq<Elem>, dummy: Elem, sigs: seq<Elem>, nSigs: Elem, keys: seq<Elem>, nKeys: Elem)
    requires Spells(m.stack, s, dummy, sigs, nSigs, keys, nKeys) && |sigs| <= |keys| <= 20 && m.opCount + |keys| <= MAX_OPS
    ensures var r := MultisigArguments(m);
      r == Some(MultisigArgs(Reversed(keys), Reversed(sigs), 2 + |keys| + |sigs|))
      && Drop(m.stack, r.value.used) == s + [dummy]
  {
    var st, k := m.stack, |keys|;
    var front := s + [dummy] + sigs + [nSigs];
    assert st == front + keys + [nKeys] && Top(st, 1) == nKeys;
    TopListIs(st, front, keys, [nKeys], 1);
    assert Top(st, 2 + k) == nSigs;
    assert st == (s + [dummy]) + sigs + ([nSigs] + keys + [nKeys]);
    TopListIs(st, s + [dummy], sigs, [nSigs] + keys + [nKeys], 2 + k);
    assert Drop(st, 2 + k + |sigs|) == s + [dummy];
  }

  lemma TopListIs(st: seq<Elem>, below: seq<Elem>, l: seq<Elem>, above: seq<Elem>, i: nat)
    requires st == below + l + above && i == |above|
    ensures TopList(st, i, |l|) == Reversed(l)
  {
    var t := TopList(st, i, |l|);
    forall j | 0 <= j < |t| ensures t[j] == Reversed(l)[j] {
      assert t[j] == st[|below| + (|l| - 1 - j)];
    }
  }

  lemma ReversedMatches(valid: (Elem, Elem) -> bool, sigs: seq<Elem>, keys: seq<Elem>)
    ensures Matches(valid, Reversed(sigs), Reversed(keys), 0, 0) <==> Matches(valid, sigs, keys, 0, 0)
  {
    assert Reversed(Reversed(sigs)) == sigs && Reversed(Reversed(keys)) == keys;
    if Matches(valid, sigs, keys, 0, 0) { MatchesReversed(valid, sigs, keys); }
    if Matches(valid, Reversed(sigs), Reversed(keys), 0, 0) { MatchesReversed(valid, Reversed(sigs), Reversed(keys)); }
  }

  /** OP_CHECKMULTISIG without strict encoding: true exactly when the signatures can be matched, in order, with keys
      they verify under; what is left is the stack below the dummy. The VERIFY form goes on exactly when true. */
  lemma CheckMultisigMeans(env: Env, m: Machine, s: seq<Elem>, dummy: Elem, sigs: seq<Elem>, nSigs: Elem, keys: seq<Elem>, nKeys: Elem)
    requires Spells(m.stack, s, dummy, sigs, nSigs, keys, nKeys) && |sigs| <= |keys| <= 20 && m.opCount + |keys| <= MAX_OPS
    requires !env.strictEncoding && (env.nullDummy ==> dummy == [])
    ensures var ok := Matches(Verifies(env, SignedCode(env.script, m.codeStart, Reversed(sigs))), sigs, keys, 0, 0);
      var m1 := m.(opCount := m.opCount + |keys|);
      && Do(env, m, 0xae) == Some(m1.(stack := s + [if ok then [1] else []]))
      && Do(env, m, 0xaf) == if ok then Some(m1.(stack := s)) else None
  {
    var valid := Verifies(env, SignedCode(env.script, m.codeStart, Reversed(sigs)));
    SpelledArguments(m, s, dummy, sigs, nSigs, keys, nKeys);
    MatchLoopDecides(env, valid, Reversed(sigs), Reversed(keys), 0, 0);
    ReversedMatches(valid, sigs, keys);
    var args := MultisigArgs(Reversed(keys), Reversed(sigs), 2 + |keys| + |sigs|);
    BothForms(env, m, args, s, dummy, Matches(valid, sigs, keys, 0, 0));
  }

  lemma BothForms(env: Env, m: Machine, args: MultisigArgs, s: seq<Elem>, dummy: Elem, ok: bool)
    requires MultisigArguments(m) == Some(args) && Drop(m.stack, args.used) == s + [dummy] && (env.nullDummy ==> dummy == [])
    requires MatchLoop(env, Verifies(env, SignedCode(env.script, m.codeStart, args.sigs)), args.sigs, args.keys, 0, 0) == Some(ok)
    ensures var m1 := m.(opCount := m.opCount + |args.keys|);
      && Do(env, m, 0xae) == Some(m1.(stack := s + [if ok then [1] else []]))
      && Do(env, m, 0xaf) == if ok then Some(m1.(stack := s)) else None
  {
    MatchedLeaves(env, m, args, s, dummy, ok, false);
    MatchedLeaves(env, m, args, s, dummy, ok, true);
  }

  lemma MatchedLeaves(env: Env, m: Machine, args: MultisigArgs, s: seq<Elem>, dummy: Elem, ok: bool, verify: bool)
    requires MultisigArguments(m) == Some(args) && Drop(m.stack, args.used) == s + [dummy] && (env.nullDummy ==> dummy == [])
    requires MatchLoop(env, Verifies(env, SignedCode(env.script, m.codeStart, args.sigs)), args.sigs, args.keys, 0, 0) == Some(ok)
    ensures var m1 := m.(opCount := m.opCount + |args.keys|);
      CheckMultisigOp(env, m, verify)
      == if !verify then Some(m1.(stack := s + [if ok then [1] else []])) else if ok then Some(m1.(stack := s)) else None
  {
    assert Drop(s + [dummy], 1) == s && Top(s + [dummy], 1) == dummy;
    BoolIs(ok);
  }

  /** It fails on a dummy that has to be empty and is not. */
  lemma DummyRefused(env: Env, m: Machine, s: seq<Elem>, dummy: Elem, sigs: seq<Elem>, nSigs: Elem, keys: seq<Elem>, nKeys: Elem)
    requires Spells(m.stack, s, dummy, sigs, nSigs, keys, nKeys) && |sigs| <= |keys| <= 20 && m.opCount + |keys| <= MAX_OPS
    requires env.nullDummy && dummy != []
    ensures Do(env, m, 0xae).None? && Do(env, m, 0xaf).None?
  {
    SpelledArguments(m, s, dummy, sigs, nSigs, keys, nKeys);
    assert Top(s + [dummy], 1) == dummy;
  }

  /** And on a number of keys that is no number from 0 to 20 or exceeds the operation limit, or a number of
      signatures that is no number from 0 to that of the keys. */
  lemma CountsRefused(env: Env, m: Machine, t: seq<Elem>, keys: seq<Elem>, nKeys: Elem)
    requires m.stack == t + keys + [nKeys]
    requires |nKeys| > 4 || Decode(nKeys) < 0 || Decode(nKeys) > 20 || m.opCount + Decode(nKeys) > MAX_OPS
      || (Decode(nKeys) == |keys| && (t == [] || |t[|t| - 1]| > 4 || Decode(t[|t| - 1]) < 0 || Decode(t[|t| - 1]) > |keys|))
    ensures Do(env, m, 0xae).None? && Do(env, m, 0xaf).None?
  {
    assert Top(m.stack, 1) == nKeys;
    if |nKeys| <= 4 && Decode(nKeys) == |keys| && t != [] {
      assert Top(m.stack, 2 + |keys|) == t[|t| - 1];
    }
  }

  /** OP_CODESEPARATOR moves the start of the covered code to its own end. */
  lemma Separator(env: Env, m: Machine, end: nat)
    ensures Exec(env, m, Instr(Op(0xab, []), end)) == Some(m.(codeStart := end))
  {
  }
}
