/**
 Scripts as bytes: reading one operation (src/script.h:463-507), pushing data (411-429), the list of
 operations a script parses to, and the in-place deletion of a pattern (523-536).
 */
module ScriptCode {
  import opened BigNum

  const OP_PUSHDATA1: Byte := 0x4c
  const OP_PUSHDATA2: Byte := 0x4d
  const OP_PUSHDATA4: Byte := 0x4e

  type Script = seq<Byte>

  /** One operation; `data` is empty unless the opcode is a push. */
  datatype Op = Op(code: Byte, data: seq<Byte>)

  datatype Read = Failed | Read(op: Op, next: nat)

  /** The size field after a push opcode: its width in bytes. */
  function SizeWidth(code: Byte): nat {
    if code == OP_PUSHDATA1 then 1 else if code == OP_PUSHDATA2 then 2 else if code == OP_PUSHDATA4 then 4 else 0
  }

  function LittleEndian(n: nat, width: nat): (s: seq<Byte>)
    ensures |s| == width
  {
    if width == 0 then [] else [n % 256] + LittleEndian(n / 256, width - 1)
  }

  lemma {:induction false} LittleEndianValue(n: nat, width: nat)
    requires n < Pow256(width)
    ensures FromMagnitude(LittleEndian(n, width)) == n
  {
    if width > 0 {
      LittleEndianValue(n / 256, width - 1);
      assert LittleEndian(n, width)[1..] == LittleEndian(n / 256, width - 1);
    }
  }

  lemma {:induction false} LittleEndianOf(s: seq<Byte>)
    ensures LittleEndian(FromMagnitude(s), |s|) == s
  {
    if s != [] {
      var rest, r := s[1..], FromMagnitude(s[1..]);
      LittleEndianOf(rest);
      LittleEndianStep(s[0], r, FromMagnitude(s), |rest|, |s|);
      assert s == [s[0]] + rest;
    }
  }

  lemma LittleEndianStep(b: Byte, r: nat, n: nat, width: nat, width': nat)
    requires n == b + 256 * r && width' == width + 1
    ensures LittleEndian(n, width') == [b] + LittleEndian(r, width)
  {
    assert n % 256 == b && n / 256 == r;
  }

  /** Read the operation at pc: `GetOp2`. */
  function GetOp(s: Script, pc: nat): (r: Read)
    ensures r.Read? ==> pc < r.next <= |s|
  {
    if pc >= |s| then Failed
    else
      var code := s[pc];
      if code > OP_PUSHDATA4 then Read(Op(code, []), pc + 1)
      else
        var width := SizeWidth(code);
        if |s| - (pc + 1) < width then Failed
        else
          var size := if width == 0 then code else FromMagnitude(s[pc + 1..pc + 1 + width]);
          var start := pc + 1 + width;
          if |s| - start < size then Failed else Read(Op(code, s[start..start + size]), start + size)
  }

  /** Operations that some byte string denotes. */
  predicate Encodable(op: Op) {
    if op.code > OP_PUSHDATA4 then op.data == []
    else if SizeWidth(op.code) == 0 then |op.data| == op.code
    else |op.data| < Pow256(SizeWidth(op.code))
  }

  /** The bytes of one operation. */
  function Bytes(op: Op): (s: Script)
    ensures s != [] && s[0] == op.code
  {
    [op.code] + LittleEndian(|op.data|, SizeWidth(op.code)) + op.data
  }

  /** The push operator: the shortest opcode that can carry the data. */
  function PushOp(data: seq<Byte>): Op
    requires |data| < Pow256(4)
  {
    var code: Byte := if |data| < OP_PUSHDATA1 then |data|
                      else if |data| <= 0xff then OP_PUSHDATA1
                      else if |data| <= 0xffff then OP_PUSHDATA2
                      else OP_PUSHDATA4;
    Op(code, data)
  }

  /** Reading undoes writing: whatever follows, the operation and its end are found again. */
  lemma ReadWritten(op: Op, rest: Script)
    requires Encodable(op)
    ensures GetOp(Bytes(op) + rest, 0) == Read(op, |Bytes(op)|)
  {
    var s := Bytes(op) + rest;
    var width := SizeWidth(op.code);
    if width > 0 {
      LittleEndianValue(|op.data|, width);
    }
    assert s[1..1 + width] == LittleEndian(|op.data|, width);
    assert s[1 + width..1 + width + |op.data|] == op.data;
  }

  /** And writing undoes reading: the consumed bytes are those of the operation. */
  lemma WrittenRead(s: Script, pc: nat)
    requires GetOp(s, pc).Read?
    ensures Encodable(GetOp(s, pc).op) && s[pc..GetOp(s, pc).next] == Bytes(GetOp(s, pc).op)
  {
    var r := GetOp(s, pc);
    var width := SizeWidth(r.op.code);
    FromMagnitudeBound(s[pc + 1..pc + 1 + width]);
    LittleEndianOf(s[pc + 1..pc + 1 + width]);
    var start := pc + 1 + width;
    assert s[pc + 1..start] == LittleEndian(|r.op.data|, width);
    assert s[start..r.next] == r.op.data;
    assert s[pc..r.next] == [s[pc]] + s[pc + 1..start] + s[start..r.next];
  }

  /** Pushing data and reading it back gives the data, for every length a script can carry. */
  lemma PushedData(data: seq<Byte>, rest: Script)
    requires |data| < Pow256(4)
    ensures GetOp(Bytes(PushOp(data)) + rest, 0) == Read(PushOp(data), |Bytes(PushOp(data))|)
    ensures PushOp(data).data == data
  {
    assert Pow256(1) == 256 && Pow256(2) == 256 * 256;
    ReadWritten(PushOp(data), rest);
  }

  lemma SliceOfDrop<T>(s: seq<T>, pc: nat, from: nat, size: nat)
    requires pc + from + size <= |s|
    ensures s[pc..][from..from + size] == s[pc + from..pc + from + size]
  {
  }

  /** Only what has been read so far matters. */
  lemma ReadShifted(s: Script, pc: nat)
    requires pc <= |s|
    ensures GetOp(s, pc).Read? <==> GetOp(s[pc..], 0).Read?
    ensures GetOp(s, pc).Read? ==>
              GetOp(s[pc..], 0) == Read(GetOp(s, pc).op, GetOp(s, pc).next - pc)
  {
    var t := s[pc..];
    if pc < |s| {
      var width := SizeWidth(s[pc]);
      if |s| - (pc + 1) >= width {
        SliceOfDrop(s, pc, 1, width);
        var size := if width == 0 then s[pc] as int else FromMagnitude(s[pc + 1..pc + 1 + width]);
        if |s| - (pc + 1 + width) >= size {
          SliceOfDrop(s, pc, 1 + width, size);
        }
      }
    }
  }

  // ----- whole scripts -----

  datatype Parsed = Parsed(ops: seq<Op>, tail: Script)

  /** All operations of a script, and the bytes after the last readable one. */
  function Parse(s: Script): Parsed
    decreases |s|
  {
    match GetOp(s, 0)
    case Failed => Parsed([], s)
    case Read(op, next) =>
      var rest := Parse(s[next..]);
      Parsed([op] + rest.ops, rest.tail)
  }

  function Print(ops: seq<Op>): Script {
    if ops == [] then [] else Bytes(ops[0]) + Print(ops[1..])
  }

  /** Printing undoes parsing, and what is left over cannot be read. */
  lemma {:induction false} PrintParse(s: Script)
    ensures Print(Parse(s).ops) + Parse(s).tail == s
    ensures GetOp(Parse(s).tail, 0).Failed?
    ensures forall i :: 0 <= i < |Parse(s).ops| ==> Encodable(Parse(s).ops[i])
    decreases |s|
  {
    match GetOp(s, 0)
    case Failed =>
    case Read(op, next) =>
      WrittenRead(s, 0);
      PrintParse(s[next..]);
      PrintHead(s, op, next, Parse(s[next..]), Parse(s).ops);
  }

  lemma PrintHead(s: Script, op: Op, next: nat, rest: Parsed, ops: seq<Op>)
    requires next <= |s| && s[0..next] == Bytes(op) && ops == [op] + rest.ops
    requires Print(rest.ops) + rest.tail == s[next..]
    ensures Print(ops) + rest.tail == s
  {
    assert ops[1..] == rest.ops;
    assert s == s[0..next] + s[next..];
    assert Bytes(op) + Print(rest.ops) + rest.tail == Bytes(op) + (Print(rest.ops) + rest.tail);
  }

  /** Parsing undoes printing. */
  lemma {:induction false} ParsePrint(ops: seq<Op>, tail: Script)
    requires forall i :: 0 <= i < |ops| ==> Encodable(ops[i])
    requires GetOp(tail, 0).Failed?
    ensures Parse(Print(ops) + tail) == Parsed(ops, tail)
  {
    if ops == [] {
      assert Print(ops) + tail == tail;
    } else {
      var op, more := ops[0], ops[1..];
      ParsePrint(more, tail);
      PrintCons(ops, op, more, tail, Print(more), Print(ops) + tail);
      ParseCons(op, Bytes(op), Print(more) + tail, Parsed(more, tail), Print(ops) + tail);
      assert [op] + more == ops;
    }
  }

  lemma PrintCons(ops: seq<Op>, op: Op, more: seq<Op>, tail: Script, printed: Script, s: Script)
    requires ops != [] && op == ops[0] && more == ops[1..] && printed == Print(more) && s == Print(ops) + tail
    ensures s == Bytes(op) + (printed + tail)
  {
  }

  lemma ParseCons(op: Op, head: Script, rest: Script, parsed: Parsed, s: Script)
    requires Encodable(op) && head == Bytes(op) && Parse(rest) == parsed && s == head + rest
    ensures Parse(s) == Parsed([op] + parsed.ops, parsed.tail)
  {
    ReadWritten(op, rest);
    assert s[|head|..] == rest;
  }

  // ----- deleting a pattern -----

  function Without(ops: seq<Op>, op: Op): seq<Op> {
    if ops == [] then [] else (if ops[0] == op then [] else [ops[0]]) + Without(ops[1..], op)
  }

  function Count(ops: seq<Op>, op: Op): nat {
    if ops == [] then 0 else (if ops[0] == op then 1 else 0) + Count(ops[1..], op)
  }

  /** The pattern is exactly one operation. */
  predicate IsOneOp(b: Script) { GetOp(b, 0).Read? && GetOp(b, 0).next == |b| }

  predicate StartsWith(s: Script, b: Script) { |s| >= |b| && s[..|b|] == b }

  lemma ParseHead(s: Script, op: Op)
    requires Encodable(op) && StartsWith(s, Bytes(op))
    ensures Parse(s).ops == [op] + Parse(s[|Bytes(op)|..]).ops && Parse(s).tail == Parse(s[|Bytes(op)|..]).tail
  {
    assert s == Bytes(op) + s[|Bytes(op)|..];
    ReadWritten(op, s[|Bytes(op)|..]);
  }

  /** A script that does not start with an operation's bytes does not start with that operation. */
  lemma OtherHead(s: Script, op: Op)
    requires GetOp(s, 0).Read? && !StartsWith(s, Bytes(op))
    ensures GetOp(s, 0).op != op
  {
    WrittenRead(s, 0);
    assert s[0..GetOp(s, 0).next] == s[..GetOp(s, 0).next];
  }

  /** How far the deletion has come: `done` is what was kept of the part already passed. */
  ghost predicate Progress(whole: Script, op: Op, done: Script, rest: Script, found: nat) {
    && Print(Without(Parse(whole).ops, op)) == done + Print(Without(Parse(rest).ops, op))
    && Parse(whole).tail == Parse(rest).tail
    && Count(Parse(whole).ops, op) == found + Count(Parse(rest).ops, op)
  }

  lemma WithoutHead(head: Op, ops: seq<Op>, op: Op)
    ensures Without([head] + ops, op) == if head == op then Without(ops, op) else [head] + Without(ops, op)
    ensures Count([head] + ops, op) == Count(ops, op) + if head == op then 1 else 0
    ensures Print([head] + ops) == Bytes(head) + Print(ops)
  {
    assert ([head] + ops)[1..] == ops;
  }

  lemma ProgressErase(whole: Script, op: Op, done: Script, rest: Script, found: nat)
    requires Encodable(op) && Progress(whole, op, done, rest, found) && StartsWith(rest, Bytes(op))
    ensures Progress(whole, op, done, rest[|Bytes(op)|..], found + 1)
  {
    ParseHead(rest, op);
    WithoutHead(op, Parse(rest[|Bytes(op)|..]).ops, op);
  }

  lemma ProgressKeep(whole: Script, op: Op, done: Script, rest: Script, found: nat)
    requires Progress(whole, op, done, rest, found) && !StartsWith(rest, Bytes(op)) && GetOp(rest, 0).Read?
    ensures Progress(whole, op, done + rest[..GetOp(rest, 0).next], rest[GetOp(rest, 0).next..], found)
  {
    OtherHead(rest, op);
    WrittenRead(rest, 0);
    var head, next := GetOp(rest, 0).op, GetOp(rest, 0).next;
    var ops := Parse(rest[next..]).ops;
    assert rest[..next] == Bytes(head);
    WithoutHead(head, ops, op);
    WithoutHead(head, Without(ops, op), op);
    assert done + (Bytes(head) + Print(Without(ops, op))) == (done + Bytes(head)) + Print(Without(ops, op));
  }

  lemma ProgressEnd(whole: Script, op: Op, done: Script, rest: Script, found: nat)
    requires Progress(whole, op, done, rest, found) && GetOp(rest, 0).Failed?
    ensures done + rest == Print(Without(Parse(whole).ops, op)) + Parse(whole).tail
    ensures found == Count(Parse(whole).ops, op)
  {
    assert Print(Without([], op)) == [];
    assert done + [] == done;
  }

  lemma ProgressStart(whole: Script, op: Op)
    ensures Progress(whole, op, [], whole, 0)
  {
  }

  /** Delete every occurrence of a pattern at an operation boundary. When the pattern is one complete
      operation, exactly the operations equal to it disappear, an unreadable tail stays, and the
      result counts them. */
  method FindAndDelete(script: Script, b: Script) returns (s: Script, found: nat)
    ensures b == [] ==> s == script && found == 0
    ensures IsOneOp(b) ==>
              s == Print(Without(Parse(script).ops, GetOp(b, 0).op)) + Parse(script).tail
    ensures IsOneOp(b) ==> found == Count(Parse(script).ops, GetOp(b, 0).op)
  {
    s, found := script, 0;
    if b == [] {
      return;
    }
    ghost var op := if IsOneOp(b) then GetOp(b, 0).op else Op(0, []);
    if IsOneOp(b) {
      WrittenRead(b, 0);
    }
    assert IsOneOp(b) ==> Encodable(op) && Bytes(op) == b;
    var pc := 0;
    ProgressStart(script, op);
    assert s[..0] == [] && s[0..] == s;
    while true
      invariant 0 <= pc <= |s|
      invariant IsOneOp(b) ==> Progress(script, op, s[..pc], s[pc..], found)
      decreases |s| - pc
    {
      s, found := EraseAt(script, s, pc, b, found, op);
      var r := GetOp(s, pc);
      if r.Failed? {
        break;
      }
      if IsOneOp(b) {
        KeepAt(script, op, s, pc, found);
      }
      pc := r.next;
    }
    if IsOneOp(b) {
      ReadShifted(s, pc);
      ProgressEnd(script, op, s[..pc], s[pc..], found);
      assert s == s[..pc] + s[pc..];
    }
  }

  lemma KeepAt(whole: Script, op: Op, s: Script, pc: nat, found: nat)
    requires pc <= |s| && Progress(whole, op, s[..pc], s[pc..], found)
    requires !StartsWith(s[pc..], Bytes(op)) && GetOp(s, pc).Read?
    ensures Progress(whole, op, s[..GetOp(s, pc).next], s[GetOp(s, pc).next..], found)
  {
    ReadShifted(s, pc);
    Advance(s, pc, GetOp(s, pc).next);
    KeepSplit(whole, op, s[..pc], s[pc..], found, s[..GetOp(s, pc).next], s[GetOp(s, pc).next..]);
  }

  lemma KeepSplit(whole: Script, op: Op, done: Script, rest: Script, found: nat, done': Script, rest': Script)
    requires Progress(whole, op, done, rest, found) && !StartsWith(rest, Bytes(op)) && GetOp(rest, 0).Read?
    requires done' == done + rest[..GetOp(rest, 0).next] && rest' == rest[GetOp(rest, 0).next..]
    ensures Progress(whole, op, done', rest', found)
  {
    ProgressKeep(whole, op, done, rest, found);
  }

  lemma Advance<T>(s: seq<T>, pc: nat, next: nat)
    requires pc <= next <= |s|
    ensures s[..pc] + s[pc..][..next - pc] == s[..next] && s[pc..][next - pc..] == s[next..]
  {
  }

  /** Erase repeated occurrences of the pattern at one position. */
  method EraseAt(ghost whole: Script, start: Script, pc: nat, b: Script, before: nat, ghost op: Op)
      returns (s: Script, found: nat)
    requires pc <= |start| && b != []
    requires IsOneOp(b) ==> Encodable(op) && Bytes(op) == b && Progress(whole, op, start[..pc], start[pc..], before)
    ensures pc <= |s| <= |start| && !StartsWith(s[pc..], b)
    ensures IsOneOp(b) ==> Progress(whole, op, s[..pc], s[pc..], found)
  {
    s, found := start, before;
    while |s| - pc >= |b| && s[pc..pc + |b|] == b
      invariant pc <= |s| <= |start|
      invariant IsOneOp(b) ==> Progress(whole, op, s[..pc], s[pc..], found)
      decreases |s|
    {
      EraseSlices(s, pc, b);
      if IsOneOp(b) {
        ProgressErase(whole, op, s[..pc], s[pc..], found);
      }
      s := s[..pc] + s[pc + |b|..];
      found := found + 1;
    }
  }

  lemma EraseSlices(s: Script, pc: nat, b: Script)
    requires pc + |b| <= |s| && s[pc..pc + |b|] == b
    ensures StartsWith(s[pc..], b) && s[pc..][|b|..] == s[pc + |b|..]
    ensures var s' := s[..pc] + s[pc + |b|..]; s'[..pc] == s[..pc] && s'[pc..] == s[pc + |b|..]
  {
  }
}
