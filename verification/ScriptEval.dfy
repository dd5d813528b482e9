/**
 The interpreter loop with its flat vector of conditions (src/script.cpp:511-1324), against a
 recursive interpreter over properly nested IF/ELSE/ENDIF blocks.
 */
module ScriptEval {
  import opened Wrappers
  import opened BigNum
  import opened ScriptCode
  import opened Multisig
  import opened ScriptMachine

  /** Checks and counting that apply to every operation, executed or skipped. */
  function Admit(m: Machine, ins: Instr): Option<Machine> {
    var code := ins.op.code;
    var count := if code > OP_16 then m.opCount + 1 else m.opCount;
    if |ins.op.data| > MAX_ELEMENT_SIZE || (code > OP_16 && count > MAX_OPS) || IsDisabled(code) then None
    else Some(m.(opCount := count))
  }

  function Fits(m: Machine): Option<Machine> {
    if |m.stack| + |m.alt| > MAX_STACK then None else Some(m)
  }

  // ----- the flat loop -----

  /** The machine and the vector of conditions. */
  datatype Flat = Flat(m: Machine, exec: seq<bool>)

  predicate Executing(exec: seq<bool>) { false !in exec }

  predicate Opens(code: Byte) { code == OP_IF || code == OP_NOTIF }

  predicate IsControl(code: Byte) { Opens(code) || code == OP_ELSE || code == OP_ENDIF }

  /** The condition an executed IF or NOTIF takes from the stack. */
  function Condition(m: Machine, code: Byte): Option<(Machine, bool)> {
    if |m.stack| < 1 then None
    else Some((m.(stack := Drop(m.stack, 1)), CastToBool(Top(m.stack, 1)) == (code == OP_IF)))
  }

  function FlatBody(env: Env, f: Flat, ins: Instr): Option<Flat> {
    var code, active := ins.op.code, Executing(f.exec);
    if Opens(code) then
      (if !active then Some(Flat(f.m, f.exec + [false]))
       else match Condition(f.m, code) case None => None case Some(c) => Some(Flat(c.0, f.exec + [c.1])))
    else if code == OP_ELSE then
      (if f.exec == [] then None else Some(Flat(f.m, f.exec[..|f.exec| - 1] + [!f.exec[|f.exec| - 1]])))
    else if code == OP_ENDIF then
      (if f.exec == [] then None else Some(Flat(f.m, f.exec[..|f.exec| - 1])))
    else if active then
      (match Exec(env, f.m, ins) case None => None case Some(m) => Some(Flat(m, f.exec)))
    else if code == OP_VERIF || code == OP_VERNOTIF then None
    else Some(f)
  }

  /** One turn of the loop. */
  function FlatStep(env: Env, f: Flat, ins: Instr): Option<Flat> {
    match Admit(f.m, ins)
    case None => None
    case Some(m) =>
      match FlatBody(env, Flat(m, f.exec), ins)
      case None => None
      case Some(f1) => if Fits(f1.m).None? then None else Some(f1)
  }

  function FlatRun(env: Env, f: Flat, code: seq<Instr>): Option<Flat>
    decreases |code|
  {
    if code == [] then Some(f)
    else match FlatStep(env, f, code[0]) case None => None case Some(f1) => FlatRun(env, f1, code[1..])
  }

  /** A run is accepted only when every IF has been closed. */
  function FlatEval(env: Env, m: Machine, code: seq<Instr>): Option<Machine> {
    match FlatRun(env, Flat(m, []), code)
    case None => None
    case Some(f) => if f.exec == [] then Some(f.m) else None
  }

  // ----- the nested reading -----

  /** A sequence of operations with its conditionals nested; `elses` are the further branches of one IF. */
  datatype Block =
    | Nil
    | Plain(ins: Instr, rest: Block)
    | If(open: Instr, body: Block, elses: Elses, close: Instr, rest: Block)

  datatype Elses = Done | Else(ins: Instr, body: Block, more: Elses)

  predicate Shaped(b: Block) {
    match b
    case Nil => true
    case Plain(ins, rest) => !IsControl(ins.op.code) && Shaped(rest)
    case If(open, body, elses, close, rest) =>
      Opens(open.op.code) && close.op.code == OP_ENDIF && Shaped(body) && ElsesShaped(elses) && Shaped(rest)
  }

  predicate ElsesShaped(e: Elses) {
    match e
    case Done => true
    case Else(ins, body, more) => ins.op.code == OP_ELSE && Shaped(body) && ElsesShaped(more)
  }

  function Flatten(b: Block): seq<Instr> {
    match b
    case Nil => []
    case Plain(ins, rest) => [ins] + Flatten(rest)
    case If(open, body, elses, close, rest) =>
      [open] + (Flatten(body) + (FlattenElses(elses) + ([close] + Flatten(rest))))
  }

  function FlattenElses(e: Elses): seq<Instr> {
    match e
    case Done => []
    case Else(ins, body, more) => [ins] + (Flatten(body) + FlattenElses(more))
  }

  function Bind(r: Option<Machine>, k: Machine -> Option<Machine>): Option<Machine> {
    match r case None => None case Some(m) => k(m)
  }

  /** An operation that only opens, switches or closes a branch. */
  function Pass(m: Machine, ins: Instr): Option<Machine> { Bind(Admit(m, ins), Fits) }

  function RunPlain(env: Env, m: Machine, ins: Instr, active: bool): Option<Machine> {
    match Admit(m, ins)
    case None => None
    case Some(m1) =>
      if active then Bind(Exec(env, m1, ins), Fits)
      else if ins.op.code == OP_VERIF || ins.op.code == OP_VERNOTIF then None
      else Fits(m1)
  }

  function RunOpen(m: Machine, ins: Instr, active: bool): Option<(Machine, bool)> {
    match Admit(m, ins)
    case None => None
    case Some(m1) =>
      if !active then (if Fits(m1).None? then None else Some((m1, false)))
      else
        match Condition(m1, ins.op.code)
        case None => None
        case Some(c) => if Fits(c.0).None? then None else Some(c)
  }

  /** Each branch runs when the block is active and the branch is the selected one; a skipped branch
      only counts its operations and applies the checks that hold everywhere. */
  function RunTree(env: Env, b: Block, m: Machine, active: bool): Option<Machine>
    decreases b
  {
    match b
    case Nil => Some(m)
    case Plain(ins, rest) =>
      (match RunPlain(env, m, ins, active) case None => None case Some(m1) => RunTree(env, rest, m1, active))
    case If(open, body, elses, close, rest) =>
      match RunOpen(m, open, active)
      case None => None
      case Some(c) =>
        match RunTree(env, body, c.0, active && c.1)
        case None => None
        case Some(m2) =>
          match RunElses(env, elses, m2, active, c.1)
          case None => None
          case Some(m3) =>
            match Pass(m3, close)
            case None => None
            case Some(m4) => RunTree(env, rest, m4, active)
  }

  /** `taken` says whether the branch before was the selected one; every ELSE switches. */
  function RunElses(env: Env, e: Elses, m: Machine, active: bool, taken: bool): Option<Machine>
    decreases e
  {
    match e
    case Done => Some(m)
    case Else(ins, body, more) =>
      match Pass(m, ins)
      case None => None
      case Some(m1) =>
        match RunTree(env, body, m1, active && !taken)
        case None => None
        case Some(m2) => RunElses(env, more, m2, active, !taken)
  }

  // ----- the two agree -----

  function Resume(env: Env, r: Option<Machine>, exec: seq<bool>, tail: seq<Instr>): Option<Flat> {
    match r case None => None case Some(m) => FlatRun(env, Flat(m, exec), tail)
  }

  lemma RunHead(env: Env, f: Flat, ins: Instr, tail: seq<Instr>)
    ensures FlatRun(env, f, [ins] + tail)
         == match FlatStep(env, f, ins) case None => None case Some(f1) => FlatRun(env, f1, tail)
  {
    assert ([ins] + tail)[1..] == tail;
  }

  lemma {:induction false} TreeIsFlat(env: Env, b: Block, m: Machine, exec: seq<bool>, tail: seq<Instr>)
    requires Shaped(b)
    ensures FlatRun(env, Flat(m, exec), Flatten(b) + tail)
         == Resume(env, RunTree(env, b, m, Executing(exec)), exec, tail)
    decreases b
  {
    match b
    case Nil => assert Flatten(b) + tail == tail;
    case Plain(ins, rest) =>
      PlainConcat(ins, Flatten(rest), tail);
      RunHead(env, Flat(m, exec), ins, Flatten(rest) + tail);
      var r := RunPlain(env, m, ins, Executing(exec));
      if r.Some? {
        TreeIsFlat(env, rest, r.value, exec, tail);
      }
    case If(open, body, elses, close, rest) =>
      var tail1 := [close] + (Flatten(rest) + tail);
      IfConcat(open, Flatten(body), FlattenElses(elses), close, Flatten(rest), tail);
      RunHead(env, Flat(m, exec), open, Flatten(body) + (FlattenElses(elses) + tail1));
      var c := RunOpen(m, open, Executing(exec));
      if c.Some? {
        IfIsFlat(env, b, c.value.0, c.value.1, exec, tail);
      }
  }

  lemma IfIsFlat(env: Env, b: Block, m: Machine, taken: bool, exec: seq<bool>, tail: seq<Instr>)
    requires Shaped(b) && b.If?
    ensures FlatRun(env, Flat(m, exec + [taken]), Flatten(b.body) + (FlattenElses(b.elses) + ([b.close] + (Flatten(b.rest) + tail))))
         == match RunTree(env, b.body, m, Executing(exec) && taken)
            case None => None
            case Some(m2) =>
              match RunElses(env, b.elses, m2, Executing(exec), taken)
              case None => None
              case Some(m3) =>
                match Pass(m3, b.close)
                case None => None
                case Some(m4) => Resume(env, RunTree(env, b.rest, m4, Executing(exec)), exec, tail)
    decreases b, 0
  {
    var active := Executing(exec);
    var tail1 := [b.close] + (Flatten(b.rest) + tail);
    assert Executing(exec + [taken]) == (active && taken);
    TreeIsFlat(env, b.body, m, exec + [taken], FlattenElses(b.elses) + tail1);
    var r2 := RunTree(env, b.body, m, active && taken);
    if r2.Some? {
      ElsesAreFlat(env, b.elses, r2.value, exec, taken, b.close, Flatten(b.rest) + tail);
      var r3 := RunElses(env, b.elses, r2.value, active, taken);
      if r3.Some? {
        var r4 := Pass(r3.value, b.close);
        if r4.Some? {
          TreeIsFlat(env, b.rest, r4.value, exec, tail);
        }
      }
    }
  }

  lemma {:induction false} ElsesAreFlat(env: Env, e: Elses, m: Machine, exec: seq<bool>, taken: bool, close: Instr, tail: seq<Instr>)
    requires ElsesShaped(e) && close.op.code == OP_ENDIF
    ensures FlatRun(env, Flat(m, exec + [taken]), FlattenElses(e) + ([close] + tail))
         == match RunElses(env, e, m, Executing(exec), taken)
            case None => None
            case Some(m1) => Resume(env, Pass(m1, close), exec, tail)
    decreases e
  {
    match e
    case Done =>
      assert FlattenElses(e) + ([close] + tail) == [close] + tail;
      RunHead(env, Flat(m, exec + [taken]), close, tail);
      assert (exec + [taken])[..|exec|] == exec;
    case Else(ins, body, more) =>
      var rest := Flatten(body) + (FlattenElses(more) + ([close] + tail));
      ElseConcat(ins, Flatten(body), FlattenElses(more), [close] + tail);
      RunHead(env, Flat(m, exec + [taken]), ins, rest);
      assert (exec + [taken])[..|exec|] + [!taken] == exec + [!taken];
      var r := Pass(m, ins);
      if r.Some? {
        assert Executing(exec + [!taken]) == (Executing(exec) && !taken);
        TreeIsFlat(env, body, r.value, exec + [!taken], FlattenElses(more) + ([close] + tail));
        var r2 := RunTree(env, body, r.value, Executing(exec) && !taken);
        if r2.Some? {
          ElsesAreFlat(env, more, r2.value, exec, !taken, close, tail);
        }
      }
  }

  // ----- every operation list: nested, or rejected -----

  /** Read operations up to an ELSE or ENDIF that belongs to an enclosing IF, or to the end. Fails when
      an IF is never closed. */
  function ParseBlock(code: seq<Instr>): (r: Option<(Block, seq<Instr>)>)
    ensures r.Some? ==> |r.value.1| <= |code|
    decreases |code|, 1
  {
    if code == [] || code[0].op.code == OP_ELSE || code[0].op.code == OP_ENDIF then Some((Nil, code))
    else if !Opens(code[0].op.code) then
      (match ParseBlock(code[1..]) case None => None case Some(p) => Some((Plain(code[0], p.0), p.1)))
    else
      match ParseBlock(code[1..])
      case None => None
      case Some(body) =>
        match ParseElses(body.1)
        case None => None
        case Some(t) =>
          match ParseBlock(t.2)
          case None => None
          case Some(rest) => Some((If(code[0], body.0, t.0, t.1, rest.0), rest.1))
  }

  /** Read the further branches and the ENDIF of an IF. */
  function ParseElses(code: seq<Instr>): (r: Option<(Elses, Instr, seq<Instr>)>)
    ensures r.Some? ==> |r.value.2| < |code|
    decreases |code|, 0
  {
    if code == [] then None
    else if code[0].op.code == OP_ENDIF then Some((Done, code[0], code[1..]))
    else if code[0].op.code != OP_ELSE then None
    else
      match ParseBlock(code[1..])
      case None => None
      case Some(body) =>
        match ParseElses(body.1)
        case None => None
        case Some(t) => Some((Else(code[0], body.0, t.0), t.1, t.2))
  }

  function ParseTop(code: seq<Instr>): Option<Block> {
    match ParseBlock(code)
    case None => None
    case Some(p) => if p.1 == [] then Some(p.0) else None
  }

  /** The depth of open conditionals after a list of operations; fails on an ELSE or ENDIF outside. */
  function Depth(code: seq<Instr>, d: nat): Option<nat>
    decreases |code|
  {
    if code == [] then Some(d)
    else
      var c := code[0].op.code;
      if Opens(c) then Depth(code[1..], d + 1)
      else if c == OP_ELSE then (if d == 0 then None else Depth(code[1..], d))
      else if c == OP_ENDIF then (if d == 0 then None else Depth(code[1..], d - 1))
      else Depth(code[1..], d)
  }

  /** The flat loop's condition vector has one entry per open conditional. */
  lemma {:induction false} FlatDepth(env: Env, f: Flat, code: seq<Instr>)
    requires FlatRun(env, f, code).Some?
    ensures Depth(code, |f.exec|) == Some(|FlatRun(env, f, code).value.exec|)
    decreases |code|
  {
    if code != [] {
      FlatDepth(env, FlatStep(env, f, code[0]).value, code[1..]);
    }
  }

  predicate AtBranchEnd(code: seq<Instr>) {
    code == [] || code[0].op.code == OP_ELSE || code[0].op.code == OP_ENDIF
  }

  /** Reading a block consumes its operations exactly. */
  lemma {:induction false} ParseBlockReads(code: seq<Instr>)
    ensures var r := ParseBlock(code);
            r.Some? ==> Shaped(r.value.0) && Flatten(r.value.0) + r.value.1 == code
    decreases |code|, 1
  {
    if !AtBranchEnd(code) && ParseBlock(code).Some? {
      ParseBlockReads(code[1..]);
      var body := ParseBlock(code[1..]).value;
      if Opens(code[0].op.code) {
        ParseElsesReads(body.1);
        var t := ParseElses(body.1).value;
        ParseBlockReads(t.2);
        IfReads(code, body, t, ParseBlock(t.2).value);
      } else {
        PlainReads(code, body);
      }
    }
  }

  lemma PlainReads(code: seq<Instr>, rest: (Block, seq<Instr>))
    requires code != [] && !AtBranchEnd(code) && !Opens(code[0].op.code) && Shaped(rest.0) && Flatten(rest.0) + rest.1 == code[1..]
    ensures Shaped(Plain(code[0], rest.0)) && Flatten(Plain(code[0], rest.0)) + rest.1 == code
  {
    PlainConcat(code[0], Flatten(rest.0), rest.1);
    assert code == [code[0]] + code[1..];
  }

  lemma IfReads(code: seq<Instr>, body: (Block, seq<Instr>), t: (Elses, Instr, seq<Instr>), rest: (Block, seq<Instr>))
    requires code != [] && Opens(code[0].op.code) && t.1.op.code == OP_ENDIF
    requires Shaped(body.0) && ElsesShaped(t.0) && Shaped(rest.0)
    requires Flatten(body.0) + body.1 == code[1..] && FlattenElses(t.0) + ([t.1] + t.2) == body.1 && Flatten(rest.0) + rest.1 == t.2
    ensures Shaped(If(code[0], body.0, t.0, t.1, rest.0)) && Flatten(If(code[0], body.0, t.0, t.1, rest.0)) + rest.1 == code
  {
    IfConcat(code[0], Flatten(body.0), FlattenElses(t.0), t.1, Flatten(rest.0), rest.1);
    assert code == [code[0]] + code[1..];
  }

  lemma {:induction false} ParseElsesReads(code: seq<Instr>)
    ensures var r := ParseElses(code);
            r.Some? ==> && ElsesShaped(r.value.0) && r.value.1.op.code == OP_ENDIF
                        && FlattenElses(r.value.0) + ([r.value.1] + r.value.2) == code
    decreases |code|, 0
  {
    if ParseElses(code).Some? {
      assert code == [code[0]] + code[1..];
      if code[0].op.code == OP_ELSE {
        ParseBlockReads(code[1..]);
        var body := ParseBlock(code[1..]).value;
        ParseElsesReads(body.1);
        var t := ParseElses(body.1).value;
        ElseConcat(code[0], Flatten(body.0), FlattenElses(t.0), [t.1] + t.2);
      }
    }
  }

  /** Reading a block leaves the depth as it was; when it fails, some conditional is open at the end. */
  lemma {:induction false} ParseBlockDepth(code: seq<Instr>, d: nat)
    ensures var r := ParseBlock(code);
            if r.Some? then Depth(code, d) == Depth(r.value.1, d) && AtBranchEnd(r.value.1)
            else Depth(code, d).Some? && Depth(code, d).value > d
    decreases |code|, 1
  {
    if !AtBranchEnd(code) {
      ParseBlockDepth(code[1..], if Opens(code[0].op.code) then d + 1 else d);
      var body := ParseBlock(code[1..]);
      if Opens(code[0].op.code) && body.Some? {
        ParseElsesDepth(body.value.1, d);
        var t := ParseElses(body.value.1);
        if t.Some? {
          ParseBlockDepth(t.value.2, d);
        }
      }
    }
  }

  lemma {:induction false} ParseElsesDepth(code: seq<Instr>, d: nat)
    requires AtBranchEnd(code)
    ensures var r := ParseElses(code);
            if r.Some? then Depth(code, d + 1) == Depth(r.value.2, d)
            else Depth(code, d + 1).Some? && Depth(code, d + 1).value > d
    decreases |code|, 0
  {
    if code != [] && code[0].op.code == OP_ELSE {
      ParseBlockDepth(code[1..], d + 1);
      var body := ParseBlock(code[1..]);
      if body.Some? {
        ParseElsesDepth(body.value.1, d);
      }
    }
  }

  lemma IfConcat<T>(open: T, body: seq<T>, elses: seq<T>, close: T, rest: seq<T>, left: seq<T>)
    ensures ([open] + (body + (elses + ([close] + rest)))) + left == [open] + (body + (elses + ([close] + (rest + left))))
  {
  }

  lemma PlainConcat<T>(ins: T, rest: seq<T>, left: seq<T>)
    ensures ([ins] + rest) + left == [ins] + (rest + left)
  {
  }

  lemma ElseConcat<T>(ins: T, body: seq<T>, elses: seq<T>, left: seq<T>)
    ensures ([ins] + (body + elses)) + left == [ins] + (body + (elses + left))
  {
  }

  /** The flat loop computes exactly what the recursive interpreter computes on the nested reading of
      the script, and rejects every script that has none. */
  lemma FlatEvalIsTree(env: Env, m: Machine, code: seq<Instr>)
    ensures FlatEval(env, m, code)
         == match ParseTop(code) case None => None case Some(b) => RunTree(env, b, m, true)
  {
    ParseBlockReads(code);
    ParseBlockDepth(code, 0);
    match ParseTop(code)
    case Some(b) =>
      assert Flatten(b) + [] == code;
      TreeIsFlat(env, b, m, [], []);
    case None =>
      if FlatRun(env, Flat(m, []), code).Some? {
        FlatDepth(env, Flat(m, []), code);
      }
  }

  // ----- limits over whole runs -----

  lemma FlatStepKeepsLimits(env: Env, f: Flat, ins: Instr)
    requires WithinLimits(f.m)
    ensures FlatStep(env, f, ins).Some? ==> WithinLimits(FlatStep(env, f, ins).value.m)
  {
    match Admit(f.m, ins)
    case None =>
    case Some(m) => ExecKeepsLimits(env, m, ins);
  }

  /** In every run that starts within the limits, they hold after every operation. */
  lemma {:induction false} FlatRunKeepsLimits(env: Env, f: Flat, code: seq<Instr>, n: nat)
    requires WithinLimits(f.m) && n <= |code| && FlatRun(env, f, code).Some?
    ensures FlatRun(env, f, code[..n]).Some? && WithinLimits(FlatRun(env, f, code[..n]).value.m)
    decreases n
  {
    if n == 0 {
      assert code[..0] == [];
    } else {
      FlatStepKeepsLimits(env, f, code[0]);
      var f1 := FlatStep(env, f, code[0]).value;
      FlatRunKeepsLimits(env, f1, code[1..], n - 1);
      assert code[..n][0] == code[0] && code[..n][1..] == code[1..][..n - 1];
    }
  }

  // ----- the interpreter on bytes -----

  const MAX_SCRIPT_SIZE := 10000

  /** The operations of a script from a position on, with the position after each; `None` when one
      cannot be read. */
  function Instrs(s: Script, pc: nat): Option<seq<Instr>>
    decreases |s| - pc
  {
    if pc >= |s| then Some([])
    else
      match GetOp(s, pc)
      case Failed => None
      case Read(op, next) =>
        match Instrs(s, next)
        case None => None
        case Some(code) => Some([Instr(op, next)] + code)
  }

  /** The value of a script: of its nested reading, if it is short enough, readable and balanced. */
  function Eval(env: Env, stack: seq<Elem>): Option<Machine> {
    if |env.script| > MAX_SCRIPT_SIZE then None
    else
      match Instrs(env.script, 0)
      case None => None
      case Some(code) =>
        match ParseTop(code)
        case None => None
        case Some(b) => RunTree(env, b, Machine(stack, [], 0, 0), true)
  }

  /** What is left to do in the middle of the loop. */
  ghost function Outcome(env: Env, f: Flat, pc: nat): Option<Machine> {
    match Instrs(env.script, pc)
    case None => None
    case Some(code) =>
      match FlatRun(env, f, code)
      case None => None
      case Some(f1) => if f1.exec == [] then Some(f1.m) else None
  }

  lemma OutcomeStep(env: Env, f: Flat, pc: nat)
    requires pc < |env.script|
    ensures Outcome(env, f, pc)
         == match GetOp(env.script, pc)
            case Failed => None
            case Read(op, next) =>
              match FlatStep(env, f, Instr(op, next))
              case None => None
              case Some(f1) => Outcome(env, f1, next)
  {
    var r := GetOp(env.script, pc);
    if r.Read? && Instrs(env.script, r.next).Some? {
      RunHead(env, f, Instr(r.op, r.next), Instrs(env.script, r.next).value);
    }
  }

  /** One turn of the loop on the interpreter's variables. */
  method Turn(env: Env, before: Flat, ins: Instr) returns (ok: bool, after: Flat)
    ensures ok <==> FlatStep(env, before, ins).Some?
    ensures ok ==> after == FlatStep(env, before, ins).value
  {
    after := before;
    var m;
    ok, m := Count(before.m, ins);
    if !ok {
      return;
    }
    var step := FlatBody(env, Flat(m, before.exec), ins);
    if step.None? {
      return false, after;
    }
    after := step.value;
    ok := |after.m.stack| + |after.m.alt| <= MAX_STACK;
  }

  /** Element size, operation count and disabled operations, before anything is done. */
  method Count(before: Machine, ins: Instr) returns (ok: bool, m: Machine)
    ensures ok <==> Admit(before, ins).Some?
    ensures ok ==> m == Admit(before, ins).value
  {
    m := before;
    if |ins.op.data| > MAX_ELEMENT_SIZE {
      return false, m;
    }
    if ins.op.code > OP_16 {
      m := m.(opCount := m.opCount + 1);
      if m.opCount > MAX_OPS {
        return false, m;
      }
    }
    ok := !IsDisabled(ins.op.code);
  }

  /** An accepted run from small enough input leaves a small enough stack. */
  lemma EvalKeepsLimits(env: Env, stack: seq<Elem>)
    requires WithinLimits(Machine(stack, [], 0, 0)) && Eval(env, stack).Some?
    ensures WithinLimits(Eval(env, stack).value)
  {
    var code := Instrs(env.script, 0).value;
    FlatEvalIsTree(env, Machine(stack, [], 0, 0), code);
    FlatRunKeepsLimits(env, Flat(Machine(stack, [], 0, 0), []), code, |code|);
    assert code[..|code|] == code;
  }

  /** `EvalScript`: accepts exactly when the nested reading of the script evaluates, with the same stack. */
  method EvalScript(env: Env, initial: seq<Elem>) returns (ok: bool, stack: seq<Elem>)
    ensures ok <==> Eval(env, initial).Some?
    ensures ok ==> stack == Eval(env, initial).value.stack
  {
    if |env.script| > MAX_SCRIPT_SIZE {
      return false, initial;
    }
    var f, pc := Flat(Machine(initial, [], 0, 0), []), 0;
    EvalIsOutcome(env, initial);
    while pc < |env.script|
      invariant 0 <= pc <= |env.script| && Eval(env, initial) == Outcome(env, f, pc)
      decreases |env.script| - pc
    {
      OutcomeStep(env, f, pc);
      var r := GetOp(env.script, pc);
      if r.Failed? {
        return false, f.m.stack;
      }
      ok, f := Turn(env, f, Instr(r.op, r.next));
      if !ok {
        return false, f.m.stack;
      }
      pc := r.next;
    }
    ok, stack := f.exec == [], f.m.stack;
  }

  lemma EvalIsOutcome(env: Env, stack: seq<Elem>)
    requires |env.script| <= MAX_SCRIPT_SIZE
    ensures Eval(env, stack) == Outcome(env, Flat(Machine(stack, [], 0, 0), []), 0)
  {
    match Instrs(env.script, 0)
    case None =>
    case Some(code) => FlatEvalIsTree(env, Machine(stack, [], 0, 0), code);
  }
}
