// The git binary delta format: what a delta means, and the decoder of delta.c.

module DeltaFormat {
  import opened Bytes

  const COPY_MAX := 0x10000
  const WORD := 0x1_0000_0000          // one more than the largest unsigned int
  const SIZE := 0x1_0000_0000_0000_0000 // one more than the largest size_t

  // Undefined: the C code reads past the end of the delta or of the base, or shifts by more
  // than the width of the shifted word.
  datatype Outcome = Applied(out: bytes) | Rejected | Undefined

  // ----- the sizes in the header

  datatype Header = Sized(size: nat, rest: bytes) | Truncated | TooWide

  // A size in groups of seven bits, lowest first; weight is 2^shift.
  function ReadSize(d: bytes, weight: nat): Header {
    if d == [] then Truncated
    else if weight >= WORD then TooWide
    else
      var low := (d[0] % 0x80) * weight % WORD;
      if d[0] < 0x80 then Sized(low, d[1..])
      else
        match ReadSize(d[1..], weight * 0x80)
        case Sized(high, rest) => Sized(low + high, rest)
        case h => h
  }

  // The encoding of a size: all groups but the last have the top bit set.
  function SizeBytes(n: nat): bytes {
    if n < 0x80 then [n] else [n % 0x80 + 0x80] + SizeBytes(n / 0x80)
  }

  lemma SplitSize(n: nat, weight: nat)
    requires 0 < weight && 0x80 <= n && n * weight < WORD
    ensures n * weight == (n / 0x80) * (weight * 0x80) + (n % 0x80) * weight
    ensures (n % 0x80) * weight < WORD && weight * 0x80 < WORD
  {
    assert n * weight == (n / 0x80 * 0x80 + n % 0x80) * weight;
    assert 0x80 * weight <= n * weight;
  }

  lemma ReadLastGroup(low: byte, d: bytes, weight: nat)
    requires 0 < weight < WORD && low < 0x80 && low * weight < WORD
    ensures ReadSize([low] + d, weight) == Sized(low * weight, d)
  {
    assert ([low] + d)[1..] == d;
  }

  lemma ReadGroup(low: byte, d: bytes, weight: nat)
    requires 0 < weight < WORD && low < 0x80 && ReadSize(d, weight * 0x80).Sized?
    ensures ReadSize([low + 0x80] + d, weight) ==
      Sized(low * weight % WORD + ReadSize(d, weight * 0x80).size, ReadSize(d, weight * 0x80).rest)
  {
    assert ([low + 0x80] + d)[1..] == d;
  }

  lemma {:induction false} ReadSizeBytes(n: nat, weight: nat, rest: bytes)
    requires 0 < weight < WORD && n * weight < WORD
    ensures ReadSize(SizeBytes(n) + rest, weight) == Sized(n * weight, rest)
  {
    hide ReadSize;
    if n < 0x80 {
      ReadLastGroup(n, rest, weight);
    } else {
      SplitSize(n, weight);
      ReadSizeBytes(n / 0x80, weight * 0x80, rest);
      ReadGroup(n % 0x80, SizeBytes(n / 0x80) + rest, weight);
      assert SizeBytes(n) + rest == [n % 0x80 + 0x80] + (SizeBytes(n / 0x80) + rest);
    }
  }

  // ----- one command

  datatype Read = Got(values: bytes, rest: bytes) | Missing

  // The n operands of a copy: one byte of d for each bit set among the lowest n of flags, zero
  // for the others.
  function ReadOperands(flags: nat, n: nat, d: bytes): (r: Read)
    ensures r.Got? ==> |r.values| == n && |r.rest| <= |d|
  {
    if n == 0 then Got([], d)
    else if flags % 2 == 1 && d == [] then Missing
    else
      var (value, rest) := if flags % 2 == 1 then (d[0], d[1..]) else (0, d);
      match ReadOperands(flags / 2, n - 1, rest)
      case Missing => Missing
      case Got(values, rest') => Got([value] + values, rest')
  }

  // The fourth offset byte is shifted as a signed int and then widened to size_t.
  function SignedTop(b: byte): nat {
    if b < 0x80 then b * 0x100_0000 else SIZE - WORD + b * 0x100_0000
  }

  function Offset(v: bytes): nat
    requires |v| == 7
  {
    v[0] + v[1] * 0x100 + v[2] * 0x1_0000 + SignedTop(v[3])
  }

  function RawLength(v: bytes): nat
    requires |v| == 7
  {
    var l0: nat, l1: nat, l2: nat := v[4], v[5], v[6];
    l0 + l1 * 0x100 + l2 * 0x1_0000
  }

  function Length(v: bytes): nat
    requires |v| == 7
  {
    if RawLength(v) == 0 then COPY_MAX else RawLength(v)
  }

  // Emit: the command appends out to the result and rest is still to be read.
  datatype Command = Emit(out: bytes, rest: bytes) | Bad | Wild

  function ReadCopy(base: bytes, cmd: byte, d: bytes, room: nat): Command {
    match ReadOperands(cmd % 0x80, 7, d)
    case Missing => Wild
    case Got(v, rest) =>
      var off, len := Offset(v), Length(v);
      if |base| < (off + len) % SIZE || room < len then Bad
      else if |base| < off + len then Wild
      else Emit(base[off..off + len], rest)
  }

  function ReadInsert(cmd: byte, d: bytes, room: nat): Command {
    if cmd == 0 || |d| < cmd || room < cmd then Bad else Emit(d[..cmd], d[cmd..])
  }

  // The first command of d, with room for that many more bytes of result.
  function ReadCommand(base: bytes, d: bytes, room: nat): (c: Command)
    requires d != []
    ensures c.Emit? ==> |c.rest| < |d| && |c.out| <= room
  {
    if d[0] >= 0x80 then ReadCopy(base, d[0], d[1..], room) else ReadInsert(d[0], d[1..], room)
  }

  // ----- a whole delta

  // Runs the commands of d, each read by read, into a result with that much room.
  function Replay(read: (bytes, nat) -> Command, d: bytes, room: nat): Outcome
    decreases |d|
  {
    if d == [] then
      if room == 0 then Applied([]) else Rejected
    else
      match read(d, room)
      case Bad => Rejected
      case Wild => Undefined
      case Emit(out, rest) =>
        if |rest| >= |d| || |out| > room then Undefined  // no command does this
        else
          match Replay(read, rest, room - |out|)
          case Applied(more) => Applied(out + more)
          case o => o
  }

  function Reader(base: bytes): (bytes, nat) -> Command {
    (d: bytes, room: nat) => if d == [] then Bad else ReadCommand(base, d, room)
  }

  function Run(base: bytes, d: bytes, room: nat): Outcome {
    Replay(Reader(base), d, room)
  }

  function Apply(base: bytes, delta: bytes): Outcome {
    match ReadSize(delta, 1)
    case Truncated => Rejected
    case TooWide => Undefined
    case Sized(baseSize, d) =>
      if baseSize != |base| then Rejected
      else
        match ReadSize(d, 1)
        case Truncated => Rejected
        case TooWide => Undefined
        case Sized(size, commands) => Run(base, commands, size)
  }

  // ----- commands as the encoder writes them

  // A byte for each operand that is not zero.
  function OperandBytes(v: bytes): bytes {
    if v == [] then [] else (if v[0] == 0 then [] else [v[0]]) + OperandBytes(v[1..])
  }

  // A bit for each operand that is not zero, lowest first.
  function Flags(v: bytes): nat {
    if v == [] then 0 else (if v[0] == 0 then 0 else 1) + 2 * Flags(v[1..])
  }

  function Byte(n: nat, weight: nat): byte
    requires weight > 0
  {
    n / weight % 0x100
  }

  function Operands(off: nat, len: nat): bytes {
    [Byte(off, 1), Byte(off, 0x100), Byte(off, 0x1_0000), Byte(off, 0x100_0000), Byte(len, 1), Byte(len, 0x100), 0]
  }

  lemma FlagsOf7(v: bytes)
    requires |v| == 7
    ensures Flags(v) < 0x80
  {
    var v1 := v[1..];
    var v2 := v1[1..];
    var v3 := v2[1..];
    var v4 := v3[1..];
    var v5 := v4[1..];
    var v6 := v5[1..];
    hide Flags;
    NoFlags();
    assert v6[1..] == [];
    FlagsDouble(v6, 1);
    FlagsDouble(v5, 2);
    FlagsDouble(v4, 4);
    FlagsDouble(v3, 8);
    FlagsDouble(v2, 0x10);
    FlagsDouble(v1, 0x20);
    FlagsDouble(v, 0x40);
  }

  lemma NoFlags()
    ensures Flags([]) < 1
  {}

  lemma FlagsDouble(v: bytes, bound: nat)
    requires v != [] && Flags(v[1..]) < bound
    ensures Flags(v) < 2 * bound
  {}

  // The copy command with operands v.
  function CopyOf(v: bytes): bytes
    requires |v| == 7
  {
    FlagsOf7(v);
    [0x80 + Flags(v)] + OperandBytes(v)
  }

  // A copy of len bytes from off.
  function CopyBytes(off: nat, len: nat): bytes {
    CopyOf(Operands(off, len))
  }

  lemma FlagsStep(v: bytes)
    requires v != []
    ensures (Flags(v) % 2 == 1) == (v[0] != 0) && Flags(v) / 2 == Flags(v[1..])
  {}

  lemma ReadPresent(flags: nat, n: nat, b: byte, d: bytes)
    requires flags % 2 == 1 && ReadOperands(flags / 2, n, d).Got?
    ensures ReadOperands(flags, n + 1, [b] + d)
         == Got([b] + ReadOperands(flags / 2, n, d).values, ReadOperands(flags / 2, n, d).rest)
  {
    assert ([b] + d)[1..] == d;
  }

  lemma {:induction false} ReadOperandBytes(v: bytes, rest: bytes)
    ensures ReadOperands(Flags(v), |v|, OperandBytes(v) + rest) == Got(v, rest)
  {
    if v == [] {
      assert OperandBytes(v) + rest == rest;
    } else {
      ReadOperandBytes(v[1..], rest);
      FlagsStep(v);
      assert v == [v[0]] + v[1..];
      var d := OperandBytes(v[1..]) + rest;
      if v[0] == 0 {
        assert OperandBytes(v) + rest == d;
      } else {
        assert OperandBytes(v) + rest == [v[0]] + d;
        ReadPresent(Flags(v), |v| - 1, v[0], d);
      }
    }
  }

  lemma FourBytes(n: nat)
    requires n < WORD
    ensures Byte(n, 1) + Byte(n, 0x100) as nat * 0x100 + Byte(n, 0x1_0000) as nat * 0x1_0000
          + Byte(n, 0x100_0000) as nat * 0x100_0000 == n
  {
    var n1 := n / 0x100;
    var n2 := n1 / 0x100;
    var n3 := n2 / 0x100;
    assert n2 == n / 0x1_0000 && n3 == n / 0x100_0000 && n3 < 0x100;
  }

  lemma OffsetValue(off: nat, len: nat)
    requires off < 0x8000_0000
    ensures Offset(Operands(off, len)) == off
  {
    FourBytes(off);
  }

  lemma LengthValue(off: nat, len: nat)
    requires 0 < len <= COPY_MAX
    ensures Length(Operands(off, len)) == len
  {}

  lemma ReadCopyOf(base: bytes, v: bytes, rest: bytes, room: nat)
    requires |v| == 7 && Offset(v) + Length(v) <= |base| <= 0x8000_0000 && Length(v) <= room
    ensures ReadCommand(base, CopyOf(v) + rest, room) == Emit(base[Offset(v)..Offset(v) + Length(v)], rest)
  {
    hide Offset, Length, Flags, OperandBytes, ReadOperands;
    FlagsOf7(v);
    ReadOperandBytes(v, rest);
    var d := CopyOf(v) + rest;
    assert d[0] == 0x80 + Flags(v) && d[1..] == OperandBytes(v) + rest;
  }

  lemma ReadCopyBytes(base: bytes, off: nat, len: nat, rest: bytes, room: nat)
    requires |base| <= 0x8000_0000 && off + len <= |base| && 0 < len <= COPY_MAX && len <= room
    ensures ReadCommand(base, CopyBytes(off, len) + rest, room) == Emit(base[off..off + len], rest)
  {
    OffsetValue(off, len);
    LengthValue(off, len);
    ReadCopyOf(base, Operands(off, len), rest, room);
  }

  lemma ReadInsertBytes(base: bytes, literal: bytes, rest: bytes, room: nat)
    requires 0 < |literal| < 0x80 && |literal| <= room
    ensures ReadCommand(base, [|literal|] + literal + rest, room) == Emit(literal, rest)
  {
    var d := [|literal|] + literal + rest;
    assert d[1..] == literal + rest;
    assert (literal + rest)[..|literal|] == literal;
    assert (literal + rest)[|literal|..] == rest;
  }

  // ----- deltas put together

  lemma {:induction false} ReadOperandsMore(flags: nat, n: nat, a: bytes, b: bytes)
    requires ReadOperands(flags, n, a).Got?
    ensures ReadOperands(flags, n, a + b)
         == Got(ReadOperands(flags, n, a).values, ReadOperands(flags, n, a).rest + b)
  {
    if n > 0 {
      var rest := if flags % 2 == 1 then a[1..] else a;
      ReadOperandsMore(flags / 2, n - 1, rest, b);
      assert flags % 2 == 1 ==> (a + b)[1..] == rest + b;
    }
  }

  // A command that can be run is run the same way when more commands follow it.
  lemma ReadMore(base: bytes, a: bytes, b: bytes, room: nat, more: nat)
    requires a != [] && ReadCommand(base, a, room).Emit?
    ensures ReadCommand(base, a + b, room + more)
         == Emit(ReadCommand(base, a, room).out, ReadCommand(base, a, room).rest + b)
  {
    assert (a + b)[1..] == a[1..] + b;
    if a[0] >= 0x80 {
      ReadOperandsMore(a[0] % 0x80, 7, a[1..], b);
    } else {
      assert (a[1..] + b)[..a[0]] == a[1..][..a[0]];
      assert (a[1..] + b)[a[0]..] == a[1..][a[0]..] + b;
    }
  }

  ghost predicate ExtendsAt(read: (bytes, nat) -> Command, a: bytes, b: bytes, room: nat, more: nat) {
    a != [] && read(a, room).Emit? ==>
      read(a + b, room + more) == Emit(read(a, room).out, read(a, room).rest + b)
  }

  lemma {:induction false} ReplayAppend(read: (bytes, nat) -> Command, a: bytes, x: bytes, b: bytes, y: bytes)
    requires forall a, b, room: nat, more: nat :: ExtendsAt(read, a, b, room, more)
    requires Replay(read, a, |x|) == Applied(x) && Replay(read, b, |y|) == Applied(y)
    ensures Replay(read, a + b, |x| + |y|) == Applied(x + y)
    decreases |a|
  {
    if a == [] {
      assert a + b == b && x + y == y;
    } else {
      assert ExtendsAt(read, a, b, |x|, |y|);
      var c := read(a, |x|);
      var x' := x[|c.out|..];
      assert x == c.out + x';
      ReplayAppend(read, c.rest, x', b, y);
      assert x + y == c.out + (x' + y);
    }
  }

  // Running one delta after another appends the results.
  lemma RunAppend(base: bytes, a: bytes, x: bytes, b: bytes, y: bytes)
    requires Run(base, a, |x|) == Applied(x) && Run(base, b, |y|) == Applied(y)
    ensures Run(base, a + b, |x| + |y|) == Applied(x + y)
  {
    forall a, b, room: nat, more: nat ensures ExtendsAt(Reader(base), a, b, room, more) {
      if a != [] && ReadCommand(base, a, room).Emit? {
        ReadMore(base, a, b, room, more);
      }
    }
    ReplayAppend(Reader(base), a, x, b, y);
  }

  lemma RunCommand(base: bytes, d: bytes, out: bytes)
    requires d != [] && ReadCommand(base, d, |out|) == Emit(out, [])
    ensures Run(base, d, |out|) == Applied(out)
  {
    assert out + [] == out;
    assert Replay(Reader(base), [], 0) == Applied([]);
  }

  lemma RunCopy(base: bytes, off: nat, len: nat)
    requires |base| <= 0x8000_0000 && off + len <= |base| && 0 < len <= COPY_MAX
    ensures Run(base, CopyBytes(off, len), len) == Applied(base[off..off + len])
  {
    ReadCopyBytes(base, off, len, [], len);
    assert CopyBytes(off, len) + [] == CopyBytes(off, len);
    RunCommand(base, CopyBytes(off, len), base[off..off + len]);
  }

  lemma RunInsert(base: bytes, literal: bytes)
    requires 0 < |literal| < 0x80
    ensures Run(base, [|literal|] + literal, |literal|) == Applied(literal)
  {
    ReadInsertBytes(base, literal, [], |literal|);
    assert [|literal|] + literal + [] == [|literal|] + literal;
    RunCommand(base, [|literal|] + literal, literal);
  }
}
