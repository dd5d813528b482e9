/**
 Conditionals, counting and the refusals that hold for every operation of a script (src/script.cpp:508-662,
 1310-1324).
 */
module ScriptFlow {
  import opened Wrappers
  import opened BigNum
  import opened ScriptCode
  import opened Multisig
  import opened ScriptMachine
  import opened ScriptEval
  import opened ScriptLaws

  // ----- branches -----

  /** The stacks and the code separator are the same. */
  predicate SameStacks(m: Machine, r: Machine) { r.stack == m.stack && r.alt == m.alt && r.codeStart == m.codeStart }

  /** A block that is skipped only counts. */
  lemma {:induction false} SkippedLeaves(env: Env, b: Block, m: Machine)
    requires RunTree(env, b, m, false).Some?
    ensures SameStacks(m, RunTree(env, b, m, false).value)
    decreases b
  {
    match b
    case Nil =>
    case Plain(ins, rest) => SkippedLeaves(env, rest, RunPlain(env, m, ins, false).value);
    case If(open, body, elses, close, rest) =>
      var m1 := RunOpen(m, open, false).value.0;
      SkippedLeaves(env, body, m1);
      var m2 := RunTree(env, body, m1, false).value;
      SkippedElses(env, elses, m2, false);
      var m3 := RunElses(env, elses, m2, false, false).value;
      SkippedLeaves(env, rest, Pass(m3, close).value);
  }

  lemma {:induction false} SkippedElses(env: Env, e: Elses, m: Machine, taken: bool)
    requires RunElses(env, e, m, false, taken).Some?
    ensures SameStacks(m, RunElses(env, e, m, false, taken).value)
    decreases e
  {
    match e
    case Done =>
    case Else(ins, body, more) =>
      var m1 := Pass(m, ins).value;
      SkippedLeaves(env, body, m1);
      SkippedElses(env, more, RunTree(env, body, m1, false).value, !taken);
  }

  /** The condition of an executed IF or NOTIF is the top element: it selects the first branch of an IF exactly when
      it is not zero, and of a NOTIF exactly when it is. */
  lemma Selects(m: Machine, s: seq<Elem>, c: Elem, open: Instr)
    requires m.stack == s + [c] && (open.op.code == 0x63 || open.op.code == 0x64) && RunOpen(m, open, true).Some?
    ensures var r := RunOpen(m, open, true).value;
      && r.0 == m.(stack := s, opCount := m.opCount + 1)
      && (r.1 <==> if open.op.code == 0x63 then Decode(c) != 0 else Decode(c) == 0)
  {
    assert Drop(m.stack, 1) == s && Top(m.stack, 1) == c;
    TrueIsNonzero(c);
  }

  lemma NothingToSelect(m: Machine, open: Instr)
    requires m.stack == []
    ensures RunOpen(m, open, true).None?
  {
  }

  /** IF with an ELSE: exactly one of the two branches is run, on the stack without the condition, and what it
      leaves is what is left. */
  lemma OneBranch(env: Env, m: Machine, s: seq<Elem>, c: Elem, open: Instr, yes: Block, els: Instr, no: Block, close: Instr)
    requires m.stack == s + [c] && (open.op.code == 0x63 || open.op.code == 0x64)
    requires RunTree(env, If(open, yes, Else(els, no, Done), close, Nil), m, true).Some?
    ensures var first := if open.op.code == 0x63 then Decode(c) != 0 else Decode(c) == 0;
      var r := RunTree(env, If(open, yes, Else(els, no, Done), close, Nil), m, true).value;
      exists n: nat :: var ran := RunTree(env, if first then yes else no, m.(stack := s, opCount := n), true);
        ran.Some? && SameStacks(ran.value, r)
  {
    Selects(m, s, c, open);
    var first := if open.op.code == 0x63 then Decode(c) != 0 else Decode(c) == 0;
    var m1 := RunOpen(m, open, true).value.0;
    var m2 := RunTree(env, yes, m1, first).value;
    var m3 := Pass(m2, els).value;
    var m4 := RunTree(env, no, m3, !first).value;
    assert RunElses(env, Done, m4, true, !first) == Some(m4);
    assert RunElses(env, Else(els, no, Done), m2, true, first) == Some(m4);
    if first {
      SkippedLeaves(env, no, m3);
      assert m1 == m.(stack := s, opCount := m1.opCount);
    } else {
      SkippedLeaves(env, yes, m1);
      assert m3 == m.(stack := s, opCount := m3.opCount);
    }
  }

  // ----- refusals -----

  /** How many operations of a list count. */
  function Counting(code: seq<Instr>): nat {
    if code == [] then 0 else (if code[0].op.code > 0x60 then 1 else 0) + Counting(code[1..])
  }

  lemma StepCounts(env: Env, f: Flat, ins: Instr)
    requires FlatStep(env, f, ins).Some?
    ensures var r := FlatStep(env, f, ins).value;
      && r.m.opCount >= f.m.opCount + (if ins.op.code > 0x60 then 1 else 0)
      && (ins.op.code > 0x60 ==> r.m.opCount <= 201) && (ins.op.code <= 0x60 ==> r.m.opCount == f.m.opCount)
      && |r.m.stack| + |r.m.alt| <= 1000
      && |ins.op.data| <= 520 && !IsDisabled(ins.op.code) && ins.op.code != 0x65 && ins.op.code != 0x66
  {
    var code, m := ins.op.code, Admit(f.m, ins).value;
    if !IsControl(code) && Executing(f.exec) {
      ExecCounts(env, m, ins);
    }
  }

  lemma ExecCounts(env: Env, m: Machine, ins: Instr)
    requires Exec(env, m, ins).Some?
    ensures var r := Exec(env, m, ins).value;
      && r.opCount >= m.opCount && (m.opCount <= 201 ==> r.opCount <= 201) && (ins.op.code <= 0x60 ==> r.opCount == m.opCount)
      && ins.op.code != 0x65 && ins.op.code != 0x66
  {
    if ins.op.code == 0xae || ins.op.code == 0xaf {
      var args := MultisigArguments(m).value;
      assert m.opCount + |args.keys| <= 201;
    }
  }

  /** In a run that succeeds every operation beyond the pushes counts, and there are at most 201; no element pushed
      is over 520 bytes; no disabled or VERIF operation occurs, not even in a branch that is skipped. */
  lemma {:induction false} RunObeys(env: Env, f: Flat, code: seq<Instr>)
    requires FlatRun(env, f, code).Some? && f.m.opCount <= 201
    ensures f.m.opCount + Counting(code) <= 201
    ensures forall i :: 0 <= i < |code| ==>
      |code[i].op.data| <= 520 && !IsDisabled(code[i].op.code) && code[i].op.code != 0x65 && code[i].op.code != 0x66
    ensures code != [] ==> |FlatRun(env, f, code).value.m.stack| + |FlatRun(env, f, code).value.m.alt| <= 1000
    decreases |code|
  {
    if code != [] {
      var f1 := FlatStep(env, f, code[0]).value;
      StepCounts(env, f, code[0]);
      RunObeys(env, f1, code[1..]);
      if |code| == 1 { assert FlatRun(env, f, code) == Some(f1); }
      assert forall i :: 0 < i < |code| ==> code[i] == code[1..][i - 1];
    }
  }

  /** The disabled operations are those on strings and bits, doubling, halving, products, quotients and shifts. */
  lemma DisabledAre(code: Byte)
    ensures IsDisabled(code) <==> code in [0x7e, 0x7f, 0x80, 0x81, 0x83, 0x84, 0x85, 0x86, 0x8d, 0x8e, 0x95, 0x96, 0x97, 0x98, 0x99]
  {
  }

  /** The NOPs do nothing, or end evaluation where they are discouraged; operations that do not exist end it. */
  lemma NopsAndUnknown(env: Env, m: Machine, code: Byte)
    ensures 0xb0 <= code <= 0xb9 && (code != 0xb1 || !env.checkLockTime) ==>
      Do(env, m, code) == if env.discourageNops then None else Some(m)
    ensures code >= 0xba || code == 0x50 || code == 0x62 || code == 0x65 || code == 0x66 || code == 0x89 || code == 0x8a ==> Do(env, m, code).None?
  {
  }

  /** A script that is accepted is at most 10000 bytes long and can be read to its end, and obeys all this. */
  lemma EvalObeys(env: Env, stack: seq<Elem>)
    requires Eval(env, stack).Some?
    ensures |env.script| <= 10000 && Instrs(env.script, 0).Some?
    ensures var code := Instrs(env.script, 0).value;
      && Counting(code) <= 201
      && forall i :: 0 <= i < |code| ==>
           |code[i].op.data| <= 520 && !IsDisabled(code[i].op.code) && code[i].op.code != 0x65 && code[i].op.code != 0x66
  {
    var code := Instrs(env.script, 0).value;
    FlatEvalIsTree(env, Machine(stack, [], 0, 0), code);
    RunObeys(env, Flat(Machine(stack, [], 0, 0), []), code);
  }

  /** A step that admits, executes and fits: for operations that are no conditional. */
  lemma Stepped(env: Env, m: Machine, ins: Instr, r: Machine)
    requires !IsControl(ins.op.code) && !IsDisabled(ins.op.code) && |ins.op.data| <= 520
    requires ins.op.code > 0x60 ==> m.opCount < 201
    requires Exec(env, m.(opCount := m.opCount + (if ins.op.code > 0x60 then 1 else 0)), ins) == Some(r)
    ensures FlatStep(env, Flat(m, []), ins) == if |r.stack| + |r.alt| <= 1000 then Some(Flat(r, [])) else None
  {
  }

  lemma NotStepped(env: Env, m: Machine, ins: Instr)
    requires !IsControl(ins.op.code)
    requires Exec(env, m.(opCount := m.opCount + (if ins.op.code > 0x60 then 1 else 0)), ins).None?
    ensures FlatStep(env, Flat(m, []), ins).None?
  {
  }
}
