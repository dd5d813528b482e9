/**
 What each script operation does to the stacks (src/script.cpp:552-1307): the body of the interpreter
 loop for an executed operation, and the limits every operation keeps. Signature checks and hash
 functions are inputs.
 */
module ScriptMachine {
  import opened BigNum
  import opened ScriptCode
  import opened Multisig
  import opened Wrappers

  const MAX_ELEMENT_SIZE := 520
  const MAX_OPS := 201
  const MAX_STACK := 1000
  const LOCKTIME_THRESHOLD := 500000000

  const OP_1NEGATE: Byte := 0x4f
  const OP_1: Byte := 0x51
  const OP_16: Byte := 0x60
  const OP_IF: Byte := 0x63
  const OP_NOTIF: Byte := 0x64
  const OP_VERIF: Byte := 0x65
  const OP_VERNOTIF: Byte := 0x66
  const OP_ELSE: Byte := 0x67
  const OP_ENDIF: Byte := 0x68

  type Hash20 = s: seq<Byte> | |s| == 20 witness seq(20, _ => 0)
  type Hash32 = s: seq<Byte> | |s| == 32 witness seq(32, _ => 0)

  /** What evaluation depends on besides the stacks. */
  datatype Env = Env(
    script: Script,
    strictEncoding: bool, nullDummy: bool, discourageNops: bool, checkLockTime: bool,
    signatureWellFormed: Elem -> bool, keyWellFormed: Elem -> bool, signatureValid: (Elem, Elem, Script) -> bool,
    hash20: (Byte, Elem) -> Hash20, hash32: (Byte, Elem) -> Hash32,
    txLockTime: nat, inputFinal: bool)

  datatype Machine = Machine(stack: seq<Elem>, alt: seq<Elem>, opCount: nat, codeStart: nat)

  /** An operation and the position right after it. */
  datatype Instr = Instr(op: Op, end: nat)

  const FALSE: Elem := []
  const TRUE: Elem := [1]

  function Bool(b: bool): Elem { if b then TRUE else FALSE }

  /** Any nonzero byte makes an element true, except a sign bit alone at the end. */
  function CastToBool(e: Elem): bool {
    exists i :: 0 <= i < |e| && e[i] != 0 && !(i == |e| - 1 && e[i] == 0x80)
  }

  function Top(s: seq<Elem>, i: nat): Elem
    requires 1 <= i <= |s|
  {
    s[|s| - i]
  }

  function Drop(s: seq<Elem>, n: nat): seq<Elem>
    requires n <= |s|
  {
    s[..|s| - n]
  }

  /** A numeric operand; more than the allowed size is the exception that ends evaluation. */
  function Number(e: Elem, maxSize: nat): Option<int> {
    if |e| > maxSize then None else Some(Decode(e))
  }

  predicate IsDisabled(code: Byte) {
    || 0x7e <= code <= 0x81 || 0x83 <= code <= 0x86 || code == 0x8d || code == 0x8e || 0x95 <= code <= 0x99
  }

  // ----- groups of operations; each returns None where the source returns false or throws -----

  function StackOp(st: seq<Elem>, code: Byte): Option<seq<Elem>> {
    var n := |st|;
    match code
    case 0x6d => if n < 2 then None else Some(Drop(st, 2))
    case 0x6e => if n < 2 then None else Some(st + [Top(st, 2), Top(st, 1)])
    case 0x6f => if n < 3 then None else Some(st + [Top(st, 3), Top(st, 2), Top(st, 1)])
    case 0x70 => if n < 4 then None else Some(st + [Top(st, 4), Top(st, 3)])
    case 0x71 => if n < 6 then None else Some(Drop(st, 6) + st[n - 4..] + [Top(st, 6), Top(st, 5)])
    case 0x72 => if n < 4 then None else Some(Drop(st, 4) + [Top(st, 2), Top(st, 1), Top(st, 4), Top(st, 3)])
    case 0x73 => if n < 1 then None else Some(if CastToBool(Top(st, 1)) then st + [Top(st, 1)] else st)
    case 0x74 => Some(st + [Encode(n)])
    case 0x75 => if n < 1 then None else Some(Drop(st, 1))
    case 0x76 => if n < 1 then None else Some(st + [Top(st, 1)])
    case 0x77 => if n < 2 then None else Some(Drop(st, 2) + [Top(st, 1)])
    case 0x78 => if n < 2 then None else Some(st + [Top(st, 2)])
    case 0x7b => if n < 3 then None else Some(Drop(st, 3) + [Top(st, 2), Top(st, 1), Top(st, 3)])
    case 0x7c => if n < 2 then None else Some(Drop(st, 2) + [Top(st, 1), Top(st, 2)])
    case 0x7d => if n < 2 then None else Some(Drop(st, 2) + [Top(st, 1), Top(st, 2), Top(st, 1)])
    case 0x82 => if n < 1 then None else Some(st + [Encode(|Top(st, 1)|)])
    case _ => None
  }

  /** OP_PICK and OP_ROLL. */
  function PickOp(st: seq<Elem>, roll: bool): Option<seq<Elem>> {
    if |st| < 2 then None
    else
      match Number(Top(st, 1), 4)
      case None => None
      case Some(n) =>
        var rest := Drop(st, 1);
        if n < 0 || n >= |rest| then None
        else
          var e := Top(rest, n + 1);
          Some((if roll then rest[..|rest| - n - 1] + rest[|rest| - n..] else rest) + [e])
  }

  function EqualOp(st: seq<Elem>, verify: bool): Option<seq<Elem>> {
    if |st| < 2 then None
    else
      var equal := Top(st, 2) == Top(st, 1);
      if !verify then Some(Drop(st, 2) + [Bool(equal)]) else if equal then Some(Drop(st, 2)) else None
  }

  function B2I(b: bool): int { if b then 1 else 0 }

  function Unary(code: Byte, a: int): Option<int> {
    match code
    case 0x8b => Some(a + 1)
    case 0x8c => Some(a - 1)
    case 0x8f => Some(-a)
    case 0x90 => Some(if a < 0 then -a else a)
    case 0x91 => Some(B2I(a == 0))
    case 0x92 => Some(B2I(a != 0))
    case _ => None
  }

  function Binary(code: Byte, a: int, b: int): Option<int> {
    match code
    case 0x93 => Some(a + b)
    case 0x94 => Some(a - b)
    case 0x9a => Some(B2I(a != 0 && b != 0))
    case 0x9b => Some(B2I(a != 0 || b != 0))
    case 0x9c => Some(B2I(a == b))
    case 0x9d => Some(B2I(a == b))
    case 0x9e => Some(B2I(a != b))
    case 0x9f => Some(B2I(a < b))
    case 0xa0 => Some(B2I(a > b))
    case 0xa1 => Some(B2I(a <= b))
    case 0xa2 => Some(B2I(a >= b))
    case 0xa3 => Some(if a < b then a else b)
    case 0xa4 => Some(if a > b then a else b)
    case _ => None
  }

  function UnaryOp(st: seq<Elem>, code: Byte): Option<seq<Elem>> {
    if |st| < 1 then None
    else
      match Number(Top(st, 1), 4)
      case None => None
      case Some(a) =>
        match Unary(code, a)
        case None => None
        case Some(r) => Some(Drop(st, 1) + [Encode(r)])
  }

  function BinaryOp(st: seq<Elem>, code: Byte): Option<seq<Elem>> {
    if |st| < 2 then None
    else
      match (Number(Top(st, 2), 4), Number(Top(st, 1), 4))
      case (Some(a), Some(b)) =>
        (match Binary(code, a, b)
         case None => None
         case Some(r) =>
           if code != 0x9d then Some(Drop(st, 2) + [Encode(r)])
           else if CastToBool(Encode(r)) then Some(Drop(st, 2)) else None)
      case _ => None
  }

  function WithinOp(st: seq<Elem>): Option<seq<Elem>> {
    if |st| < 3 then None
    else
      match (Number(Top(st, 3), 4), Number(Top(st, 2), 4), Number(Top(st, 1), 4))
      case (Some(x), Some(lo), Some(hi)) => Some(Drop(st, 3) + [Bool(lo <= x < hi)])
      case _ => None
  }

  function HashOp(env: Env, st: seq<Elem>, code: Byte): Option<seq<Elem>> {
    if |st| < 1 then None
    else
      var e := Top(st, 1);
      var h: Elem := if code == 0xa8 || code == 0xaa then env.hash32(code, e) else env.hash20(code, e);
      Some(Drop(st, 1) + [h])
  }

  predicate LockTimeReached(env: Env, n: int) {
    && (env.txLockTime < LOCKTIME_THRESHOLD <==> n < LOCKTIME_THRESHOLD)
    && n <= env.txLockTime && !env.inputFinal
  }

  /** OP_CHECKLOCKTIMEVERIFY leaves the stack alone or ends evaluation. */
  predicate LockTimeOk(env: Env, st: seq<Elem>) {
    if !env.checkLockTime then !env.discourageNops
    else |st| >= 1 && match Number(Top(st, 1), 5) case None => false case Some(n) => n >= 0 && LockTimeReached(env, n)
  }

  // ----- signatures -----

  /** The script a signature covers: from the last code separator on, without the signatures themselves. */
  function SignedCode(script: Script, from: nat, sigs: seq<Elem>): Script {
    if sigs == [] then (if from <= |script| then script[from..] else []) else DeleteSig(SignedCode(script, from, sigs[..|sigs| - 1]), sigs[|sigs| - 1])
  }

  function DeleteSig(code: Script, sig: Elem): Script {
    if |sig| >= Pow256(4) then code else Print(Without(Parse(code).ops, PushOp(sig))) + Parse(code).tail
  }

  function Verifies(env: Env, code: Script): (Elem, Elem) -> bool {
    (sig, key) => env.signatureWellFormed(sig) && env.keyWellFormed(key) && env.signatureValid(sig, key, code)
  }

  predicate Malformed(env: Env, sig: Elem, key: Elem) {
    env.strictEncoding && (!env.signatureWellFormed(sig) || !env.keyWellFormed(key))
  }

  function CheckSigOp(env: Env, m: Machine, verify: bool): Option<seq<Elem>>
  {
    var st := m.stack;
    if |st| < 2 then None
    else
      var sig, key := Top(st, 2), Top(st, 1);
      if Malformed(env, sig, key) then None
      else
        var ok := Verifies(env, SignedCode(env.script, m.codeStart, [sig]))(sig, key);
        if !verify then Some(Drop(st, 2) + [Bool(ok)]) else if ok then Some(Drop(st, 2)) else None
  }

  /** The matching loop with the early exit that strict encoding adds. */
  function MatchLoop(env: Env, valid: (Elem, Elem) -> bool, sigs: seq<Elem>, keys: seq<Elem>, i: nat, k: nat): Option<bool>
    requires i <= |sigs| && k <= |keys|
    decreases |keys| - k
  {
    if i == |sigs| then Some(true)
    else if |sigs| - i > |keys| - k then Some(false)
    else if Malformed(env, sigs[i], keys[k]) then None
    else if valid(sigs[i], keys[k]) then MatchLoop(env, valid, sigs, keys, i + 1, k + 1)
    else MatchLoop(env, valid, sigs, keys, i, k + 1)
  }

  /** Without strict encoding the loop decides whether an ordered assignment exists. */
  lemma {:induction false} MatchLoopDecides(env: Env, valid: (Elem, Elem) -> bool, sigs: seq<Elem>, keys: seq<Elem>, i: nat, k: nat)
    requires i <= |sigs| && k <= |keys| && !env.strictEncoding
    ensures MatchLoop(env, valid, sigs, keys, i, k) == Some(Matches(valid, sigs, keys, i, k))
    decreases |keys| - k
  {
    if i == |sigs| {
      assert Assigns(valid, sigs, keys, i, k, []);
    } else if |sigs| - i > |keys| - k {
      TooFewKeys(valid, sigs, keys, i, k);
    } else if valid(sigs[i], keys[k]) {
      TakeKey(valid, sigs, keys, i, k);
      MatchLoopDecides(env, valid, sigs, keys, i + 1, k + 1);
    } else {
      SkipKey(valid, sigs, keys, i, k);
      MatchLoopDecides(env, valid, sigs, keys, i, k + 1);
    }
  }

  /** The n elements below the top i, topmost first. */
  function TopList(st: seq<Elem>, i: nat, n: nat): seq<Elem>
    requires i + n <= |st|
  {
    seq(n, j requires 0 <= j < n => st[|st| - 1 - i - j])
  }

  datatype MultisigArgs = MultisigArgs(keys: seq<Elem>, sigs: seq<Elem>, used: nat)

  /** Read the arguments of OP_CHECKMULTISIG; the key count also counts as operations. */
  function MultisigArguments(m: Machine): (r: Option<MultisigArgs>)
    ensures r.Some? ==> r.value.used < |m.stack| && |r.value.sigs| <= |r.value.keys| <= 20
    ensures r.Some? ==> m.opCount + |r.value.keys| <= MAX_OPS
  {
    var st := m.stack;
    if |st| < 1 then None
    else
      match Number(Top(st, 1), 4)
      case None => None
      case Some(nKeys) =>
        if nKeys < 0 || nKeys > 20 || m.opCount + nKeys > MAX_OPS || |st| < 2 + nKeys then None
        else
          match Number(Top(st, 2 + nKeys), 4)
          case None => None
          case Some(nSigs) =>
            if nSigs < 0 || nSigs > nKeys || |st| < 3 + nKeys + nSigs then None
            else Some(MultisigArgs(TopList(st, 1, nKeys), TopList(st, 2 + nKeys, nSigs), 2 + nKeys + nSigs))
  }

  function CheckMultisigOp(env: Env, m: Machine, verify: bool): Option<Machine>
  {
    match MultisigArguments(m)
    case None => None
    case Some(args) =>
      var valid := Verifies(env, SignedCode(env.script, m.codeStart, args.sigs));
      match MatchLoop(env, valid, args.sigs, args.keys, 0, 0)
      case None => None
      case Some(ok) =>
        var rest := Drop(m.stack, args.used);
        if env.nullDummy && Top(rest, 1) != [] then None
        else
          var m1 := m.(opCount := m.opCount + |args.keys|);
          if !verify then Some(m1.(stack := Drop(rest, 1) + [Bool(ok)]))
          else if ok then Some(m1.(stack := Drop(rest, 1))) else None
  }

  // ----- one executed operation -----

  function WithStack(m: Machine, st: Option<seq<Elem>>): Option<Machine> {
    match st case None => None case Some(s) => Some(m.(stack := s))
  }

  /** The operations that only rearrange or compute on the main stack. */
  function StackEffect(env: Env, st: seq<Elem>, code: Byte): Option<seq<Elem>> {
    if code == 0x79 || code == 0x7a then PickOp(st, code == 0x7a)
    else if 0x6d <= code <= 0x7d || code == 0x82 then StackOp(st, code)
    else if code == 0x87 || code == 0x88 then EqualOp(st, code == 0x88)
    else if 0x8b <= code <= 0x92 then UnaryOp(st, code)
    else if 0x93 <= code <= 0xa4 then BinaryOp(st, code)
    else if code == 0xa5 then WithinOp(st)
    else if 0xa6 <= code <= 0xaa then HashOp(env, st, code)
    else None
  }

  /** The switch for an operation that is executed and is none of IF, NOTIF, ELSE and ENDIF. */
  function Exec(env: Env, m: Machine, ins: Instr): Option<Machine>
  {
    var code, st := ins.op.code, m.stack;
    if code <= OP_PUSHDATA4 then Some(m.(stack := st + [ins.op.data]))
    else if code == OP_1NEGATE || OP_1 <= code <= OP_16 then Some(m.(stack := st + [Encode(code - 0x50)]))
    else if code == 0x61 then Some(m)
    else if code == 0xb1 then (if LockTimeOk(env, st) then Some(m) else None)
    else if 0xb0 <= code <= 0xb9 then (if env.discourageNops then None else Some(m))
    else if code == 0x69 then (if |st| >= 1 && CastToBool(Top(st, 1)) then Some(m.(stack := Drop(st, 1))) else None)
    else if code == 0x6b then
      (if |st| < 1 then None else Some(m.(stack := Drop(st, 1), alt := m.alt + [Top(st, 1)])))
    else if code == 0x6c then
      (if |m.alt| < 1 then None else Some(m.(stack := st + [Top(m.alt, 1)], alt := Drop(m.alt, 1))))
    else if 0x6d <= code <= 0xaa then WithStack(m, StackEffect(env, st, code))
    else if code == 0xab then Some(m.(codeStart := ins.end))
    else if code == 0xac || code == 0xad then WithStack(m, CheckSigOp(env, m, code == 0xad))
    else if code == 0xae || code == 0xaf then CheckMultisigOp(env, m, code == 0xaf)
    else None
  }

  // ----- limits -----

  predicate Small(s: seq<Elem>) { forall i :: 0 <= i < |s| ==> |s[i]| <= MAX_ELEMENT_SIZE }

  /** What holds between operations: element size, both stacks together, and the operation count. */
  predicate WithinLimits(m: Machine) {
    Small(m.stack) && Small(m.alt) && |m.stack| + |m.alt| <= MAX_STACK && m.opCount <= MAX_OPS
  }

  lemma SmallNumber(n: int)
    requires 0 - Pow256(5) < n < Pow256(5)
    ensures |Encode(n)| <= 6
  {
    EncodeSize(n, 5);
  }

  lemma OperandBound(e: Elem)
    requires |e| <= 4
    ensures 0 - Pow256(4) < Decode(e) < Pow256(4) && Pow256(4) < Pow256(5) - 1
  {
    DecodeBound(e);
    assert Pow256(5) == 256 * Pow256(4);
    assert Pow256(0) == 1 && Pow256(1) == 256 && Pow256(2) == 65536 && Pow256(3) == 16777216 && Pow256(4) == 4294967296;
  }

  /** All elements come from a stack of small ones. */
  lemma ShortOps(st: seq<Elem>, code: Byte, r: seq<Elem>)
    requires Small(st) && 0x75 <= code <= 0x7d && StackOp(st, code) == Some(r)
    ensures Small(r) && |r| <= |st| + 3
  {
  }

  lemma LongOps(st: seq<Elem>, code: Byte, r: seq<Elem>)
    requires Small(st) && 0x6d <= code <= 0x73 && StackOp(st, code) == Some(r)
    ensures Small(r) && |r| <= |st| + 3
  {
  }

  lemma SizeOps(st: seq<Elem>, code: Byte, r: seq<Elem>)
    requires Small(st) && |st| <= MAX_STACK && (code == 0x74 || code == 0x82) && StackOp(st, code) == Some(r)
    ensures Small(r) && |r| <= |st| + 3
  {
    assert Pow256(5) > 1000 by { assert Pow256(1) == 256 && Pow256(2) == 65536; Pow256Grows(2, 5); }
    if code == 0x74 { SmallNumber(|st|); } else { SmallNumber(|Top(st, 1)|); }
  }

  lemma StackOpSmall(st: seq<Elem>, code: Byte, r: seq<Elem>)
    requires Small(st) && |st| <= MAX_STACK && StackOp(st, code) == Some(r)
    ensures Small(r) && |r| <= |st| + 3
  {
    if code == 0x74 || code == 0x82 {
      SizeOps(st, code, r);
    } else if code <= 0x73 {
      LongOps(st, code, r);
    } else {
      ShortOps(st, code, r);
    }
  }

  lemma {:induction false} Pow256Grows(a: nat, b: nat)
    requires a <= b
    ensures Pow256(a) <= Pow256(b)
  {
    if a < b { Pow256Grows(a, b - 1); }
  }

  lemma UnarySmall(st: seq<Elem>, code: Byte)
    requires Small(st)
    ensures UnaryOp(st, code).Some? ==> Small(UnaryOp(st, code).value)
  {
    if UnaryOp(st, code).Some? {
      OperandBound(Top(st, 1));
      SmallNumber(Unary(code, Decode(Top(st, 1))).value);
    }
  }

  lemma BinaryBound(code: Byte, a: int, b: int)
    requires 0 - Pow256(4) < a < Pow256(4) && 0 - Pow256(4) < b < Pow256(4)
    ensures Binary(code, a, b).Some? ==> 0 - Pow256(5) < Binary(code, a, b).value < Pow256(5)
  {
    assert Pow256(5) == 256 * Pow256(4);
  }

  lemma BinarySmall(st: seq<Elem>, code: Byte)
    requires Small(st)
    ensures BinaryOp(st, code).Some? ==> Small(BinaryOp(st, code).value)
  {
    if BinaryOp(st, code).Some? {
      OperandBound(Top(st, 1));
      OperandBound(Top(st, 2));
      BinaryBound(code, Decode(Top(st, 2)), Decode(Top(st, 1)));
      SmallNumber(Binary(code, Decode(Top(st, 2)), Decode(Top(st, 1))).value);
    }
  }

  lemma StackEffectSmall(env: Env, st: seq<Elem>, code: Byte)
    requires Small(st) && |st| <= MAX_STACK
    ensures StackEffect(env, st, code).Some? ==> Small(StackEffect(env, st, code).value)
  {
    if code == 0x79 || code == 0x7a {
    } else if 0x6d <= code <= 0x7d || code == 0x82 {
      var r := StackOp(st, code);
      if r.Some? { StackOpSmall(st, code, r.value); }
    } else if 0x8b <= code <= 0x92 {
      UnarySmall(st, code);
    } else if 0x93 <= code <= 0xa4 {
      BinarySmall(st, code);
    }
  }

  lemma SignaturesSmall(env: Env, m: Machine, verify: bool)
    requires Small(m.stack) && m.opCount <= MAX_OPS
    ensures CheckSigOp(env, m, verify).Some? ==> Small(CheckSigOp(env, m, verify).value)
    ensures var r := CheckMultisigOp(env, m, verify);
            r.Some? ==> && Small(r.value.stack) && r.value.opCount <= MAX_OPS
                        && r.value.alt == m.alt && r.value.codeStart == m.codeStart
  {
  }

  /** An executed operation keeps all elements small, whatever it does, and the operation count legal. */
  lemma ExecKeepsLimits(env: Env, m: Machine, ins: Instr)
    requires WithinLimits(m) && |ins.op.data| <= MAX_ELEMENT_SIZE
    ensures var r := Exec(env, m, ins);
            r.Some? ==> Small(r.value.stack) && Small(r.value.alt) && r.value.opCount <= MAX_OPS
  {
    var code := ins.op.code;
    if code <= OP_16 {
      PushExecSmall(env, m, ins);
    } else if 0x6d <= code <= 0xaa {
      StackEffectSmall(env, m.stack, code);
    } else if code >= 0xac {
      SignaturesSmall(env, m, code == 0xad);
      SignaturesSmall(env, m, code == 0xaf);
    }
  }

  lemma PushExecSmall(env: Env, m: Machine, ins: Instr)
    requires Small(m.stack) && |ins.op.data| <= MAX_ELEMENT_SIZE && ins.op.code <= OP_16
    ensures var r := Exec(env, m, ins);
            r.Some? ==> Small(r.value.stack) && r.value.alt == m.alt && r.value.opCount == m.opCount && r.value.codeStart == m.codeStart
  {
    var code := ins.op.code;
    if code == OP_1NEGATE || OP_1 <= code <= OP_16 {
      assert Pow256(5) > 100 by { assert Pow256(1) == 256; Pow256Grows(1, 5); }
      SmallNumber(code - 0x50);
    }
  }
}
