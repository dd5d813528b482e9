/**
 Verifying an input script against an output script, with pay-to-script-hash as in the Specification
 section of BIP 16 (src/script.cpp:1940-1978; src/script.h:568-580).
 */
module ScriptVerify {
  import opened Wrappers
  import opened BigNum
  import opened ScriptCode
  import opened Multisig
  import opened ScriptMachine
  import opened ScriptEval
  import opened ScriptLaws

  const OP_HASH160: Byte := 0xa9
  const OP_EQUAL: Byte := 0x87

  predicate IsPayToScriptHash(s: Script) {
    |s| == 23 && s[0] == OP_HASH160 && s[1] == 0x14 && s[22] == OP_EQUAL
  }

  /** Only pushes: every operation can be read and is at most OP_16. */
  predicate IsPushOnly(s: Script) {
    Parse(s).tail == [] && forall i :: 0 <= i < |Parse(s).ops| ==> Parse(s).ops[i].code <= OP_16
  }

  function Run(env: Env, s: Script, stack: seq<Elem>): Option<seq<Elem>> {
    match Eval(env.(script := s), stack) case None => None case Some(m) => Some(m.stack)
  }

  predicate EndsTrue(stack: seq<Elem>) { stack != [] && CastToBool(Top(stack, 1)) }

  /** The input script's pushes read in one loop. */
  method CheckPushOnly(s: Script) returns (ok: bool)
    ensures ok <==> IsPushOnly(s)
  {
    var pc := 0;
    assert s[0..] == s;
    while pc < |s|
      invariant 0 <= pc <= |s|
      invariant IsPushOnly(s) <==> IsPushOnly(s[pc..])
      decreases |s| - pc
    {
      var r := GetOp(s, pc);
      ReadShifted(s, pc);
      if r.Failed? {
        return false;
      }
      PushOnlyHead(s[pc..]);
      assert s[pc..][r.next - pc..] == s[r.next..];
      if r.op.code > OP_16 {
        return false;
      }
      pc := r.next;
    }
    assert s[pc..] == [];
    ok := true;
  }

  lemma PushOnlyHead(s: Script)
    requires GetOp(s, 0).Read?
    ensures IsPushOnly(s) <==> GetOp(s, 0).op.code <= OP_16 && IsPushOnly(s[GetOp(s, 0).next..])
  {
    var op, rest := GetOp(s, 0).op, Parse(s[GetOp(s, 0).next..]).ops;
    var ops := [op] + rest;
    assert Parse(s).ops == ops && ops[0] == op;
    assert forall i :: 0 <= i < |rest| ==> rest[i] == ops[i + 1];
    assert forall i :: 0 < i < |ops| ==> ops[i] == rest[i - 1];
  }

  predicate Accepts(env: Env, scriptSig: Script, scriptPubKey: Script) {
    match Run(env, scriptSig, [])
    case None => false
    case Some(stack) =>
      match Run(env, scriptPubKey, stack)
      case None => false
      case Some(after) =>
        EndsTrue(after) &&
        (IsPayToScriptHash(scriptPubKey) ==>
           && IsPushOnly(scriptSig) && stack != []
           && (match Run(env, Top(stack, 1), Drop(stack, 1)) case None => false case Some(s) => EndsTrue(s)))
  }

  /** The output script, run on what the input script left, ends with an element on top that is not zero. */
  predicate LeavesTrue(env: Env, scriptSig: Script, scriptPubKey: Script) {
    match Run(env, scriptSig, [])
    case None => false
    case Some(stack) =>
      match Run(env, scriptPubKey, stack)
      case None => false
      case Some(after) => after != [] && Decode(after[|after| - 1]) != 0
  }

  /** That is needed of every output, and enough for one that is no script hash. */
  lemma AcceptedLeavesTrue(env: Env, scriptSig: Script, scriptPubKey: Script)
    ensures Accepts(env, scriptSig, scriptPubKey) ==> LeavesTrue(env, scriptSig, scriptPubKey)
    ensures !IsPayToScriptHash(scriptPubKey) ==> (Accepts(env, scriptSig, scriptPubKey) <==> LeavesTrue(env, scriptSig, scriptPubKey))
  {
    match Run(env, scriptSig, [])
    case None =>
    case Some(stack) =>
      match Run(env, scriptPubKey, stack)
      case None =>
      case Some(after) =>
        if after != [] { TrueIsNonzero(Top(after, 1)); }
  }

  /** The script-hash template: HASH160, a push of 20 bytes, EQUAL. */
  lemma ScriptHashTemplate(s: Script)
    ensures IsPayToScriptHash(s) <==> exists h :: |h| == 20 && s == [0xa9, 20] + h + [0x87]
  {
    if IsPayToScriptHash(s) {
      assert s == [0xa9, 20] + s[2..22] + [0x87] && |s[2..22]| == 20;
    }
  }

  /** `VerifyScript`; the redeem script is there to be taken whenever the code takes it. */
  method VerifyScript(env: Env, scriptSig: Script, scriptPubKey: Script) returns (ok: bool)
    ensures ok <==> Accepts(env, scriptSig, scriptPubKey)
    ensures ok ==> LeavesTrue(env, scriptSig, scriptPubKey)
    ensures !IsPayToScriptHash(scriptPubKey) ==> (ok <==> LeavesTrue(env, scriptSig, scriptPubKey))
  {
    AcceptedLeavesTrue(env, scriptSig, scriptPubKey);
    var stack, after, last: seq<Elem>;
    ok, stack := EvalScript(env.(script := scriptSig), []);
    if !ok { return; }
    ok, after := EvalScript(env.(script := scriptPubKey), stack);
    if !ok { return; }
    if after == [] { return false; }
    if !CastToBool(Top(after, 1)) { return false; }
    if IsPayToScriptHash(scriptPubKey) {
      var pushOnly := CheckPushOnly(scriptSig);
      if !pushOnly { return false; }
      ScriptHashRun(env, scriptPubKey, stack);
      ok, last := EvalScript(env.(script := Top(stack, 1)), Drop(stack, 1));
      if !ok { return; }
      if last == [] { return false; }
      return CastToBool(Top(last, 1));
    }
    return true;
  }

  /** A pay-to-script-hash output compares the hash of the top element with the embedded hash, and fails
      on an empty or an already full stack. */
  lemma ScriptHashRun(env: Env, s: Script, stack: seq<Elem>)
    requires IsPayToScriptHash(s)
    ensures Run(env, s, stack)
         == if stack == [] || |stack| >= MAX_STACK then None
            else Some(Drop(stack, 1) + [Bool(env.hash20(OP_HASH160, Top(stack, 1)) == s[2..22])])
  {
    var i0, i1, i2 := Instr(Op(OP_HASH160, []), 1), Instr(Op(0x14, s[2..22]), 22), Instr(Op(OP_EQUAL, []), 23);
    var code := [i0, i1, i2];
    assert Instrs(s, 0) == Some(code) by {
      assert GetOp(s, 22) == Read(Op(OP_EQUAL, []), 23) && Instrs(s, 23) == Some([]);
      assert [i2] + [] == [i2];
      assert Instrs(s, 22) == Some([i2]);
      assert GetOp(s, 1) == Read(Op(0x14, s[2..22]), 22);
      assert Instrs(s, 1) == Some([i1] + [i2]);
      assert [i0] + ([i1] + [i2]) == code;
    }
    var e := env.(script := s);
    var f := Flat(Machine(stack, [], 0, 0), []);
    FlatEvalIsTree(e, f.m, code);
    ScriptHashSteps(e, f, i0, i1, i2);
    assert code == [i0] + ([i1] + ([i2] + []));
    RunHead(e, f, i0, [i1] + ([i2] + []));
    var r0 := FlatStep(e, f, i0);
    if r0.Some? {
      RunHead(e, r0.value, i1, [i2] + []);
      var r1 := FlatStep(e, r0.value, i1);
      if r1.Some? {
        RunHead(e, r1.value, i2, []);
      }
    }
  }

  lemma ScriptHashSteps(env: Env, f: Flat, i0: Instr, i1: Instr, i2: Instr)
    requires f.exec == [] && f.m.alt == [] && f.m.opCount == 0
    requires i0.op == Op(OP_HASH160, []) && i1.op.code == 0x14 && |i1.op.data| == 20 && i2.op == Op(OP_EQUAL, [])
    ensures var st := f.m.stack;
            var r0 := FlatStep(env, f, i0);
            if st == [] || |st| > MAX_STACK then r0.None?
            else
              && r0.Some? && r0.value.exec == []
              && (var r1 := FlatStep(env, r0.value, i1);
                  if |st| == MAX_STACK then r1.None?
                  else
                    && r1.Some? && r1.value.exec == []
                    && (var r2 := FlatStep(env, r1.value, i2);
                        && r2.Some? && r2.value.exec == []
                        && r2.value.m.stack == Drop(st, 1) + [Bool(env.hash20(OP_HASH160, Top(st, 1)) == i1.op.data)]))
  {
    var st := f.m.stack;
    if st != [] && |st| <= MAX_STACK {
      var h: Elem := env.hash20(OP_HASH160, Top(st, 1));
      var m0 := f.m.(stack := Drop(st, 1) + [h], opCount := 1);
      assert FlatStep(env, f, i0) == Some(Flat(m0, []));
      if |st| < MAX_STACK {
        var m1 := m0.(stack := m0.stack + [i1.op.data]);
        assert FlatStep(env, Flat(m0, []), i1) == Some(Flat(m1, []));
        assert Top(m1.stack, 1) == i1.op.data && Top(m1.stack, 2) == h && Drop(m1.stack, 2) == Drop(st, 1);
      }
    }
  }

  /** BIP 16: an input that only pushes is accepted exactly when the last element it pushes hashes to the
      embedded value and, run as a script on the elements before it, leaves true on top. */
  lemma PayToScriptHash(env: Env, scriptSig: Script, scriptPubKey: Script)
    requires IsPayToScriptHash(scriptPubKey)
    ensures Accepts(env, scriptSig, scriptPubKey) <==>
              match Run(env, scriptSig, [])
              case None => false
              case Some(stack) =>
                && IsPushOnly(scriptSig) && 1 <= |stack| < MAX_STACK
                && env.hash20(OP_HASH160, Top(stack, 1)) == scriptPubKey[2..22]
                && (match Run(env, Top(stack, 1), Drop(stack, 1)) case None => false case Some(s) => EndsTrue(s))
  {
    match Run(env, scriptSig, [])
    case None =>
    case Some(stack) =>
      ScriptHashRun(env, scriptPubKey, stack);
      assert CastToBool(TRUE) && !CastToBool(FALSE) by { assert TRUE[0] == 1; }
  }

  const OP_RETURN: Byte := 0x6a

  /** The first operation of the script is OP_RETURN (src/main.h:370-383). */
  predicate StartsWithReturn(s: Script) { GetOp(s, 0).Read? && GetOp(s, 0).op.code == OP_RETURN }

  /** Running such a script fails at once, on every stack. */
  lemma ReturnFails(env: Env, s: Script, stack: seq<Elem>)
    requires StartsWithReturn(s)
    ensures Run(env, s, stack).None?
  {
    var e := env.(script := s);
    if |s| <= MAX_SCRIPT_SIZE {
      EvalIsOutcome(e, stack);
      OutcomeStep(e, Flat(Machine(stack, [], 0, 0), []), 0);
    }
  }

  /** An output whose script starts with OP_RETURN cannot be spent by any input script. */
  lemma ReturnNeverAccepts(env: Env, scriptSig: Script, scriptPubKey: Script)
    requires StartsWithReturn(scriptPubKey)
    ensures !Accepts(env, scriptSig, scriptPubKey)
  {
    match Run(env, scriptSig, [])
    case None =>
    case Some(stack) => ReturnFails(env, scriptPubKey, stack);
  }
}
