/**
 Two kinds of outputs against any input script: pay to a key's hash, and the input that pushes a signature and a
 key (src/script.cpp:1940-1978).
 */
module ScriptTemplates {
  import opened Wrappers
  import opened BigNum
  import opened ScriptCode
  import opened Multisig
  import opened ScriptMachine
  import opened ScriptEval
  import opened ScriptLaws
  import opened ScriptFlow
  import opened ScriptVerify

  /** DUP HASH160 <h> EQUALVERIFY CHECKSIG. */
  predicate PaysToKeyHash(s: Script, h: seq<Byte>) {
    |h| == 20 && s == [0x76, 0xa9, 20] + h + [0x88, 0xac]
  }

  lemma KeyHashInstrs(s: Script, h: seq<Byte>)
    requires PaysToKeyHash(s, h)
    ensures |s| == 25 && Instrs(s, 0) == Some([
      Instr(Op(0x76, []), 1), Instr(Op(0xa9, []), 2), Instr(Op(20, h), 23), Instr(Op(0x88, []), 24), Instr(Op(0xac, []), 25)])
  {
    var i0, i1, i2 := Instr(Op(0x76, []), 1), Instr(Op(0xa9, []), 2), Instr(Op(20, h), 23);
    var i3, i4 := Instr(Op(0x88, []), 24), Instr(Op(0xac, []), 25);
    assert s[3..23] == h;
    assert Instrs(s, 25) == Some([]) && GetOp(s, 24) == Read(Op(0xac, []), 25);
    assert Instrs(s, 24) == Some([i4] + []) && GetOp(s, 23) == Read(Op(0x88, []), 24);
    assert [i4] + [] == [i4];
    assert Instrs(s, 23) == Some([i3] + [i4]) && GetOp(s, 2) == Read(Op(20, h), 23);
    assert Instrs(s, 2) == Some([i2] + ([i3] + [i4])) && GetOp(s, 1) == Read(Op(0xa9, []), 2);
    assert Instrs(s, 1) == Some([i1] + ([i2] + ([i3] + [i4]))) && GetOp(s, 0) == Read(Op(0x76, []), 1);
    assert [i0] + ([i1] + ([i2] + ([i3] + [i4]))) == [i0, i1, i2, i3, i4];
  }

  /** What running such an output does to every stack. */
  lemma KeyHashRun(env: Env, s: Script, h: seq<Byte>, stack: seq<Elem>)
    requires PaysToKeyHash(s, h)
    ensures Run(env, s, stack) ==
      if |stack| < 2 || |stack| > 998 then None
      else
        var sig, key := stack[|stack| - 2], stack[|stack| - 1];
        var formed := env.signatureWellFormed(sig) && env.keyWellFormed(key);
        if env.hash20(0xa9, key) != h || (env.strictEncoding && !formed) then None
        else Some(stack[..|stack| - 2] + [if formed && env.signatureValid(sig, key, SignedCode(s, 0, [sig])) then [1] else []])
  {
    KeyHashInstrs(s, h);
    var e, m := env.(script := s), Machine(stack, [], 0, 0);
    var code := Instrs(s, 0).value;
    FlatEvalIsTree(e, m, code);
    KeyHashSteps(e, m, h, code);
  }

  lemma KeyHashSteps(env: Env, m: Machine, h: seq<Byte>, code: seq<Instr>)
    requires |h| == 20 && m.alt == [] && m.opCount == 0 && m.codeStart == 0
    requires code == [Instr(Op(0x76, []), 1), Instr(Op(0xa9, []), 2), Instr(Op(20, h), 23), Instr(Op(0x88, []), 24), Instr(Op(0xac, []), 25)]
    ensures var stack, r := m.stack, FlatRun(env, Flat(m, []), code);
      if |stack| < 2 || |stack| > 998 then r.None?
      else
        var sig, key := stack[|stack| - 2], stack[|stack| - 1];
        var formed := env.signatureWellFormed(sig) && env.keyWellFormed(key);
        if env.hash20(0xa9, key) != h || (env.strictEncoding && !formed) then r.None?
        else
          && r.Some? && r.value.exec == []
          && r.value.m.stack == stack[..|stack| - 2] + [if formed && env.signatureValid(sig, key, SignedCode(env.script, 0, [sig])) then [1] else []]
  {
    var stack := m.stack;
    var rest3 := code[3..];
    assert rest3 == [code[3], code[4]];
    if stack == [] {
      RunNext(env, Flat(m, []), code, code[0], code[1..]);
      NotStepped(env, m, code[0]);
    } else {
      var s, key := stack[..|stack| - 1], stack[|stack| - 1];
      assert stack == s + [key];
      KeyHashStart(env, m, s, key, h, code, code[0], code[1], code[2], rest3);
      if |stack| < 999 {
        var m3 := m.(opCount := 2, stack := (s + [key]) + [env.hash20(0xa9, key)] + [h]);
        KeyHashEnd(env, m3, s, key, env.hash20(0xa9, key), h, rest3, code[3], code[4], stack);
      }
    }
  }

  /** DUP, HASH160 and the push of the hash. */
  lemma KeyHashStart(env: Env, m: Machine, s: seq<Elem>, key: Elem, h: Elem, code: seq<Instr>, i0: Instr, i1: Instr, i2: Instr, rest: seq<Instr>)
    requires m.stack == s + [key] && m.alt == [] && m.opCount == 0 && |h| == 20
    requires |code| >= 3 && i0 == code[0] && i1 == code[1] && i2 == code[2] && rest == code[3..]
    requires i0 == Instr(Op(0x76, []), 1) && i1 == Instr(Op(0xa9, []), 2) && i2 == Instr(Op(20, h), 23)
    ensures FlatRun(env, Flat(m, []), code) ==
      if |m.stack| > 998 then None
      else FlatRun(env, Flat(m.(opCount := 2, stack := (s + [key]) + [env.hash20(0xa9, key)] + [h]), []), rest)
  {
    var rest1, rest2 := code[1..], code[2..];
    RunNext(env, Flat(m, []), code, i0, rest1);
    OneElement(env, m.(opCount := 1), s, key);
    var m1 := m.(opCount := 1, stack := s + [key, key]);
    Stepped(env, m, i0, m1);
    if |m.stack| < 1000 {
      RunNext(env, Flat(m1, []), rest1, i1, rest2);
      assert m1.stack == (s + [key]) + [key];
      Hashes(env, m1.(opCount := 2), s + [key], key, 0xa9);
      var m2 := m1.(opCount := 2, stack := (s + [key]) + [env.hash20(0xa9, key)]);
      Stepped(env, m1, i1, m2);
      RunNext(env, Flat(m2, []), rest2, i2, rest);
      Stepped(env, m2, i2, m2.(stack := m2.stack + [h]));
    }
  }

  lemma RunNext(env: Env, f: Flat, code: seq<Instr>, ins: Instr, rest: seq<Instr>)
    requires code != [] && ins == code[0] && rest == code[1..]
    ensures FlatRun(env, f, code) == match FlatStep(env, f, ins) case None => None case Some(f1) => FlatRun(env, f1, rest)
  {
  }

  /** EQUALVERIFY and CHECKSIG, after the two hashes have been pushed. */
  lemma KeyHashEnd(env: Env, m: Machine, s: seq<Elem>, key: Elem, x: Elem, h: Elem, code: seq<Instr>, i3: Instr, i4: Instr, stack: seq<Elem>)
    requires m.stack == (s + [key]) + [x] + [h] && m.alt == [] && m.opCount == 2 && m.codeStart == 0 && |m.stack| <= 1000
    requires code == [i3, i4] && i3 == Instr(Op(0x88, []), 24) && i4 == Instr(Op(0xac, []), 25) && stack == s + [key]
    ensures var r := FlatRun(env, Flat(m, []), code);
      if x != h || |stack| < 2 then r.None?
      else
        var sig := stack[|stack| - 2];
        var formed := env.signatureWellFormed(sig) && env.keyWellFormed(key);
        if env.strictEncoding && !formed then r.None?
        else
          && r.Some? && r.value.exec == []
          && r.value.m.stack == stack[..|stack| - 2] + [if formed && env.signatureValid(sig, key, SignedCode(env.script, 0, [sig])) then [1] else []]
  {
    RunNext(env, Flat(m, []), code, i3, [i4]);
    var n := m.(opCount := 3);
    assert n.stack == (s + [key]) + [x, h];
    Equality(env, n, s + [key], x, h);
    if x != h {
      NotStepped(env, m, i3);
    } else {
      var m4 := n.(stack := s + [key]);
      Stepped(env, m, i3, m4);
      RunNext(env, Flat(m4, []), [i4], i4, []);
      if s == [] {
        NotStepped(env, m4, i4);
      } else {
        assert s == s[..|s| - 1] + [s[|s| - 1]] && stack[..|stack| - 2] == s[..|s| - 1];
        CheckSigEnd(env, m4, s[..|s| - 1], s[|s| - 1], key, i4);
      }
    }
  }

  lemma CheckSigEnd(env: Env, m: Machine, t: seq<Elem>, sig: Elem, key: Elem, ins: Instr)
    requires m.stack == t + [sig] + [key] && m.alt == [] && m.opCount == 3 && m.codeStart == 0 && |m.stack| <= 1000
    requires ins == Instr(Op(0xac, []), 25)
    ensures var r := FlatStep(env, Flat(m, []), ins);
      var formed := env.signatureWellFormed(sig) && env.keyWellFormed(key);
      if env.strictEncoding && !formed then r.None?
      else r.Some? && r.value.exec == [] && r.value.m.stack == t + [if formed && env.signatureValid(sig, key, SignedCode(env.script, 0, [sig])) then [1] else []]
  {
    var n := m.(opCount := 4);
    assert n.stack == t + [sig, key];
    CheckSig(env, n, t, sig, key);
    var formed := env.signatureWellFormed(sig) && env.keyWellFormed(key);
    if env.strictEncoding && !formed {
      NotStepped(env, m, ins);
    } else {
      Stepped(env, m, ins, n.(stack := t + [if formed && env.signatureValid(sig, key, SignedCode(env.script, 0, [sig])) then [1] else []]));
    }
  }

  /** An output that pays to a key's hash is accepted exactly when the last element that the input script leaves is a
      key with that hash, and the one before it a signature that is valid under the key. */
  lemma PayToKeyHash(env: Env, scriptSig: Script, scriptPubKey: Script, h: seq<Byte>)
    requires PaysToKeyHash(scriptPubKey, h)
    ensures Accepts(env, scriptSig, scriptPubKey) <==>
      match Run(env, scriptSig, [])
      case None => false
      case Some(stack) =>
        && 2 <= |stack| <= 998
        && var sig, key := stack[|stack| - 2], stack[|stack| - 1];
           && env.hash20(0xa9, key) == h && env.signatureWellFormed(sig) && env.keyWellFormed(key)
           && env.signatureValid(sig, key, SignedCode(scriptPubKey, 0, [sig]))
  {
    match Run(env, scriptSig, [])
    case None =>
    case Some(stack) =>
      KeyHashRun(env, scriptPubKey, h, stack);
      BoolIs(true);
      BoolIs(false);
  }

  /** An input script that pushes two elements leaves those two. */
  lemma TwoPushes(env: Env, a: Elem, b: Elem)
    requires |a| <= 520 && |b| <= 520
    ensures Run(env, Bytes(PushOp(a)) + Bytes(PushOp(b)), []) == Some([a, b])
  {
    var s := Bytes(PushOp(a)) + Bytes(PushOp(b));
    var e, m := env.(script := s), Machine([], [], 0, 0);
    PushInstrs(a, b, s);
    var code := Instrs(s, 0).value;
    FlatEvalIsTree(e, m, code);
    RunNext(e, Flat(m, []), code, code[0], [code[1]]);
    var m1 := m.(stack := [a]);
    assert [] + [a] == [a];
    Stepped(e, m, code[0], m1);
    RunNext(e, Flat(m1, []), [code[1]], code[1], []);
    var m2 := m.(stack := [a, b]);
    assert [a] + [b] == [a, b];
    Stepped(e, m1, code[1], m2);
  }

  /** So an input script of a signature and a key spends such an output exactly when the key has that hash and the
      signature is valid under it. */
  lemma SpendKeyHash(env: Env, sig: Elem, key: Elem, scriptPubKey: Script, h: seq<Byte>)
    requires PaysToKeyHash(scriptPubKey, h) && |sig| <= 520 && |key| <= 520
    ensures Accepts(env, Bytes(PushOp(sig)) + Bytes(PushOp(key)), scriptPubKey) <==>
      && env.hash20(0xa9, key) == h && env.signatureWellFormed(sig) && env.keyWellFormed(key)
      && env.signatureValid(sig, key, SignedCode(scriptPubKey, 0, [sig]))
  {
    var scriptSig := Bytes(PushOp(sig)) + Bytes(PushOp(key));
    TwoPushes(env, sig, key);
    PayToKeyHash(env, scriptSig, scriptPubKey, h);
  }

  lemma PushSize(data: Elem)
    requires |data| <= 520
    ensures |data| < Pow256(4) && |Bytes(PushOp(data))| <= |data| + 5 && PushOp(data).code <= 0x4e
  {
    assert Pow256(1) == 256 && Pow256(2) == 65536 && Pow256(3) == 16777216 && Pow256(4) == 4294967296;
  }

  lemma PushInstrs(a: Elem, b: Elem, s: Script)
    requires |a| <= 520 && |b| <= 520 && |a| < Pow256(4) && |b| < Pow256(4) && s == Bytes(PushOp(a)) + Bytes(PushOp(b))
    ensures |s| <= 10000 && PushOp(a).code <= 0x4e && PushOp(b).code <= 0x4e
    ensures Instrs(s, 0) == Some([Instr(PushOp(a), |Bytes(PushOp(a))|), Instr(PushOp(b), |s|)])
  {
    PushSize(a);
    PushSize(b);
    var p, q := Bytes(PushOp(a)), Bytes(PushOp(b));
    PushedData(a, q);
    PushedData(b, []);
    TwoInstrs(s, p, q, PushOp(a), PushOp(b));
  }

  lemma TwoInstrs(s: Script, p: Script, q: Script, a: Op, b: Op)
    requires p != [] && q != [] && s == p + q && GetOp(s, 0) == Read(a, |p|) && GetOp(q + [], 0) == Read(b, |q|)
    ensures Instrs(s, 0) == Some([Instr(a, |p|), Instr(b, |s|)])
  {
    assert q + [] == q && s[|p|..] == q;
    ReadShifted(s, |p|);
    assert Instrs(s, |s|) == Some([]);
    assert [Instr(b, |s|)] + [] == [Instr(b, |s|)];
    assert Instrs(s, |p|) == Some([Instr(b, |s|)]);
    assert [Instr(a, |p|)] + [Instr(b, |s|)] == [Instr(a, |p|), Instr(b, |s|)];
  }
}
