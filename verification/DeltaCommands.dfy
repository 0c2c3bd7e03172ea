// What the commands of a git binary delta do, however they are written: with operands that are zero and given all
// the same, with sizes of three bytes, and for a base or a result of another size.

module DeltaCommands {
  import opened Bytes
  import opened DeltaFormat

  // A command. given says which operand bytes are in the delta; those that are not are zero.
  datatype Op = Copy(v: bytes, given: seq<bool>) | Insert(data: bytes)

  predicate Valid(op: Op) {
    match op
    case Copy(v, given) =>
      |v| == 7 && |given| == 7 && v[3] < 0x80 && forall i :: 0 <= i < 7 && !given[i] ==> v[i] == 0
    case Insert(data) => 0 < |data| < 0x80
  }

  predicate AllValid(ops: seq<Op>) {
    forall i :: 0 <= i < |ops| ==> Valid(ops[i])
  }

  // The value of bytes, the lowest first.
  function Little(b: bytes): nat {
    if b == [] then 0 else b[0] + 0x100 * Little(b[1..])
  }

  function Given(v: bytes, given: seq<bool>): bytes
    requires |v| == |given|
  {
    if v == [] then [] else (if given[0] then [v[0]] else []) + Given(v[1..], given[1..])
  }

  function Bits(given: seq<bool>): nat {
    if given == [] then 0 else (if given[0] then 1 else 0) + 2 * Bits(given[1..])
  }

  lemma {:induction false} BitsFit(given: seq<bool>, n: nat)
    requires |given| == n <= 7
    ensures Bits(given) < Power(n)
  {
    if n > 0 {
      BitsFit(given[1..], n - 1);
    }
  }

  function Power(n: nat): nat {
    if n == 0 then 1 else 2 * Power(n - 1)
  }

  lemma Power7()
    ensures Power(7) == 0x80
  {
    assert Power(3) == 8;
    assert Power(5) == 32;
  }

  function Coded(op: Op): bytes
    requires Valid(op)
  {
    match op
    case Copy(v, given) => BitsFit(given, 7); Power7(); [0x80 + Bits(given)] + Given(v, given)
    case Insert(data) => [|data|] + data
  }

  // Where a copy begins: the first four operands.
  function Start(op: Op): nat
    requires Valid(op) && op.Copy?
  {
    Little(op.v[..4])
  }

  // How many bytes of the result the command gives: for a copy the last three operands, and 64 KB for none.
  function Size(op: Op): nat
    requires Valid(op)
  {
    match op
    case Copy(v, _) => if Little(v[4..]) == 0 then 0x1_0000 else Little(v[4..])
    case Insert(data) => |data|
  }

  predicate Fits(base: bytes, op: Op)
    requires Valid(op)
  {
    op.Copy? ==> Start(op) + Size(op) <= |base|
  }

  function Gives(base: bytes, op: Op): bytes
    requires Valid(op) && Fits(base, op)
  {
    match op
    case Copy(_, _) => base[Start(op)..Start(op) + Size(op)]
    case Insert(data) => data
  }

  function CodedAll(ops: seq<Op>): bytes
    requires AllValid(ops)
  {
    if ops == [] then [] else Coded(ops[0]) + CodedAll(ops[1..])
  }

  function SizeAll(ops: seq<Op>): nat
    requires AllValid(ops)
  {
    if ops == [] then 0 else Size(ops[0]) + SizeAll(ops[1..])
  }

  predicate AllFit(base: bytes, ops: seq<Op>)
    requires AllValid(ops)
  {
    ops == [] || (Fits(base, ops[0]) && AllFit(base, ops[1..]))
  }

  function GivesAll(base: bytes, ops: seq<Op>): bytes
    requires AllValid(ops) && AllFit(base, ops)
  {
    if ops == [] then [] else Gives(base, ops[0]) + GivesAll(base, ops[1..])
  }

  // ----- one command

  lemma {:induction false} ReadGiven(v: bytes, given: seq<bool>, rest: bytes)
    requires |v| == |given| && forall i :: 0 <= i < |v| && !given[i] ==> v[i] == 0
    ensures ReadOperands(Bits(given), |v|, Given(v, given) + rest) == Got(v, rest)
  {
    if v == [] {
      assert Given(v, given) + rest == rest;
    } else {
      ReadGiven(v[1..], given[1..], rest);
      assert v == [v[0]] + v[1..];
      var d := Given(v[1..], given[1..]) + rest;
      BitsStep(given);
      if given[0] {
        assert Given(v, given) + rest == [v[0]] + d;
        ReadPresent(Bits(given), |v| - 1, v[0], d);
      } else {
        assert Given(v, given) + rest == d;
      }
    }
  }

  lemma BitsStep(given: seq<bool>)
    requires given != []
    ensures (Bits(given) % 2 == 1) == given[0] && Bits(given) / 2 == Bits(given[1..])
  {}

  lemma LittleIs4(v: bytes)
    requires |v| == 7 && v[3] < 0x80
    ensures Little(v[..4]) == Offset(v)
  {
    var b := v[..4];
    assert b[1..][1..] == b[2..] && b[2..][1..] == b[3..] && b[3..][1..] == [];
    assert Little(b[3..]) == v[3];
    assert Little(b[2..]) == v[2] + 0x100 * v[3] as nat;
    assert Little(b[1..]) == v[1] + 0x100 * (v[2] + 0x100 * v[3] as nat);
  }

  lemma LittleIs3(v: bytes)
    requires |v| == 7
    ensures Little(v[4..]) == RawLength(v)
  {
    var b := v[4..];
    assert b[1..][1..] == b[2..] && b[2..][1..] == [];
    assert Little(b[2..]) == v[6];
    assert Little(b[1..]) == v[5] + 0x100 * v[6] as nat;
  }

  // A command is read as itself, and refused if and only if it reaches over the base or over the result.
  lemma OpIsRead(base: bytes, op: Op, rest: bytes, room: nat)
    requires Valid(op)
    ensures ReadCommand(base, Coded(op) + rest, room) ==
      if Fits(base, op) && Size(op) <= room then Emit(Gives(base, op), rest) else Bad
  {
    hide ReadCommand, Fits, Gives, Size, Coded;
    if op.Copy? {
      CopyIsRead(base, op, rest, room);
    } else {
      InsertIsRead(base, op, rest, room);
    }
  }

  lemma InsertIsRead(base: bytes, op: Op, rest: bytes, room: nat)
    requires Valid(op) && op.Insert?
    ensures ReadCommand(base, Coded(op) + rest, room) ==
      if Fits(base, op) && Size(op) <= room then Emit(Gives(base, op), rest) else Bad
  {
    var data, d := op.data, Coded(op) + rest;
    assert d[1..] == data + rest && (data + rest)[..|data|] == data && (data + rest)[|data|..] == rest;
  }

  lemma CopyIsRead(base: bytes, op: Op, rest: bytes, room: nat)
    requires Valid(op) && op.Copy?
    ensures ReadCommand(base, Coded(op) + rest, room) ==
      if Fits(base, op) && Size(op) <= room then Emit(Gives(base, op), rest) else Bad
  {
    hide Offset, RawLength, Bits, Given, ReadOperands, Little, ReadCopy, ReadInsert;
    var v, given, d := op.v, op.given, Coded(op) + rest;
    BitsFit(given, 7);
    Power7();
    assert d[0] == 0x80 + Bits(given) && d[1..] == Given(v, given) + rest;
    CopyReads(base, op, d[0], d[1..], rest, room);
  }

  lemma CopyReads(base: bytes, op: Op, cmd: byte, d: bytes, rest: bytes, room: nat)
    requires Valid(op) && op.Copy? && cmd == 0x80 + Bits(op.given) && d == Given(op.v, op.given) + rest
    ensures ReadCopy(base, cmd, d, room) ==
      if Fits(base, op) && Size(op) <= room then Emit(Gives(base, op), rest) else Bad
  {
    hide Offset, RawLength, Bits, Given, ReadOperands, Little;
    BitsFit(op.given, 7);
    Power7();
    ReadGiven(op.v, op.given, rest);
    LittleIs4(op.v);
    LittleIs3(op.v);
    OffsetFits(op.v);
  }

  lemma OffsetFits(v: bytes)
    requires |v| == 7 && v[3] < 0x80
    ensures Offset(v) + Length(v) < SIZE
  {}

  // ----- all commands

  lemma {:induction false} OpsRun(base: bytes, ops: seq<Op>, size: nat)
    requires AllValid(ops)
    ensures Run(base, CodedAll(ops), size) ==
      if AllFit(base, ops) && SizeAll(ops) == size then Applied(GivesAll(base, ops)) else Rejected
  {
    hide Coded, ReadCommand, Fits, Gives, Size, Valid;
    if ops != [] {
      var op, more := ops[0], CodedAll(ops[1..]);
      OpIsRead(base, op, more, size);
      IsSome(base, op);
      if Fits(base, op) && Size(op) <= size {
        OpsRun(base, ops[1..], size - Size(op));
      }
      RunFirst(base, Coded(op) + more, size);
    }
  }

  lemma IsSome(base: bytes, op: Op)
    requires Valid(op)
    ensures Coded(op) != [] && (Fits(base, op) ==> |Gives(base, op)| == Size(op))
  {}

  function Then(out: bytes, o: Outcome): Outcome {
    if o.Applied? then Applied(out + o.out) else o
  }

  lemma RunFirst(base: bytes, d: bytes, size: nat)
    requires d != []
    ensures var c := ReadCommand(base, d, size);
      && (c == Bad ==> Run(base, d, size) == Rejected)
      && (c.Emit? ==> |c.out| <= size && Run(base, d, size) == Then(c.out, Run(base, c.rest, size - |c.out|)))
  {
    hide ReadCommand;
    assert Reader(base)(d, size) == ReadCommand(base, d, size);
  }

  // A delta gives what its commands give, if it is for a base of this size, no command reaches over the base, and
  // together they give as much as the header says; and otherwise it is refused.
  lemma DeltaMeans(base: bytes, baseSize: nat, size: nat, ops: seq<Op>)
    requires AllValid(ops) && baseSize < WORD && size < WORD
    ensures Apply(base, SizeBytes(baseSize) + SizeBytes(size) + CodedAll(ops)) ==
      if baseSize == |base| && AllFit(base, ops) && SizeAll(ops) == size then Applied(GivesAll(base, ops))
      else Rejected
  {
    hide Run, ReadSize, SizeBytes, CodedAll, AllFit, SizeAll, GivesAll;
    var d := CodedAll(ops);
    ReadSizeBytes(baseSize, 1, SizeBytes(size) + d);
    ReadSizeBytes(size, 1, d);
    assert SizeBytes(baseSize) + SizeBytes(size) + d == SizeBytes(baseSize) + (SizeBytes(size) + d);
    OpsRun(base, ops, size);
  }

  // The reserved command is refused, and so is an insert that is cut off.
  lemma NoCommand(base: bytes, d: bytes, size: nat)
    requires d != [] && d[0] < 0x80 && (d[0] == 0 || |d| <= d[0])
    ensures Run(base, d, size) == Rejected
  {
    assert Reader(base)(d, size) == ReadCommand(base, d, size);
  }

  // ----- the sizes

  // A size is written in digits of seven bits, the lowest first, and all but the last have the top bit set.
  function SizeValue(b: bytes): nat {
    if b == [] then 0 else b[0] % 0x80 + 0x80 * SizeValue(b[1..])
  }

  lemma {:induction false} SizeBytesAre(n: nat)
    ensures var b := SizeBytes(n);
      && SizeValue(b) == n && b != [] && b[|b| - 1] < 0x80
      && forall i :: 0 <= i < |b| - 1 ==> b[i] >= 0x80
  {
    var b := SizeBytes(n);
    if n < 0x80 {
      assert b[1..] == [];
    } else {
      SizeBytesAre(n / 0x80);
      assert b[1..] == SizeBytes(n / 0x80);
    }
  }
}
