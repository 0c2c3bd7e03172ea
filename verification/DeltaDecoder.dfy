// The decoder of delta.c, against the meaning of a delta.

module DeltaDecoder {
  import opened Bytes
  import opened DeltaFormat

  function AddSize(r: nat, h: Header): Header {
    match h
    case Sized(size, rest) => Sized(r + size, rest)
    case _ => h
  }

  // hdr_sz: reads a size at position start.
  method ReadHeader(delta: bytes, start: nat) returns (h: Header, end: nat)
    requires start <= |delta|
    ensures h == ReadSize(delta[start..], 1)
    ensures h.Sized? ==> end <= |delta| && h.rest == delta[end..]
  {
    var r: nat, weight := 0, 1;
    end := start;
    while true
      invariant start <= end <= |delta| && weight > 0
      invariant ReadSize(delta[start..], 1) == AddSize(r, ReadSize(delta[end..], weight))
      decreases |delta| - end
    {
      if end == |delta| {
        return Truncated, end;
      }
      if weight >= WORD {
        return TooWide, end;
      }
      var c := delta[end];
      assert delta[end..][1..] == delta[end + 1..];
      r := r + (c % 0x80) * weight % WORD;
      end := end + 1;
      if c < 0x80 {
        return Sized(r, delta[end..]), end;
      }
      weight := weight * 0x80;
    }
  }

  function PrependValues(v: bytes, r: Read): Read {
    match r
    case Got(values, rest) => Got(v + values, rest)
    case Missing => Missing
  }

  lemma PushValue(v: bytes, value: byte, r: Read)
    ensures PrependValues(v + [value], r) == PrependValues(v, PrependValues([value], r))
  {
    if r.Got? {
      assert v + [value] + r.values == v + ([value] + r.values);
    }
  }

  // The operands of a copy command: each is read if its bit is set in the command.
  method CopyOperands(delta: bytes, start: nat, flags: nat) returns (r: Read, end: nat)
    requires start <= |delta|
    ensures r == ReadOperands(flags, 7, delta[start..])
    ensures r.Got? ==> start <= end <= |delta| && r.rest == delta[end..]
  {
    var v: bytes, bits, n := [], flags, 7;
    end := start;
    while n > 0
      invariant start <= end <= |delta| && 0 <= n <= 7
      invariant ReadOperands(flags, 7, delta[start..]) == PrependValues(v, ReadOperands(bits, n, delta[end..]))
    {
      if bits % 2 == 1 && end == |delta| {
        return Missing, end;
      }
      var value: byte := if bits % 2 == 1 then delta[end] else 0;
      var next := if bits % 2 == 1 then end + 1 else end;
      assert bits % 2 == 1 ==> delta[end..][1..] == delta[next..];
      PushValue(v, value, ReadOperands(bits / 2, n - 1, delta[next..]));
      v, end, bits, n := v + [value], next, bits / 2, n - 1;
    }
    r := Got(v, delta[end..]);
  }

  function PrependOut(p: bytes, o: Outcome): Outcome {
    match o
    case Applied(out) => Applied(p + out)
    case _ => o
  }

  // The command at position pos, and the position after it.
  method NextCommand(base: bytes, delta: bytes, pos: nat, room: nat) returns (c: Command, end: nat)
    requires pos < |delta|
    ensures c == ReadCommand(base, delta[pos..], room)
    ensures c.Emit? ==> pos < end <= |delta| && c.rest == delta[end..]
  {
    var cmd := delta[pos];
    end := pos + 1;
    assert delta[pos..][1..] == delta[end..];
    if cmd >= 0x80 {
      var ops;
      ops, end := CopyOperands(delta, end, cmd % 0x80);
      if ops.Missing? {
        return Wild, end;
      }
      var off, len := Offset(ops.values), Length(ops.values);
      if |base| < (off + len) % SIZE || room < len {
        return Bad, end;
      }
      if |base| < off + len {
        return Wild, end;
      }
      c := Emit(base[off..off + len], delta[end..]);
    } else if cmd > 0 {
      if |delta| - end < cmd || room < cmd {
        return Bad, end;
      }
      assert delta[end..][..cmd] == delta[end..end + cmd];
      assert delta[end..][cmd..] == delta[end + cmd..];
      c := Emit(delta[end..end + cmd], delta[end + cmd..]);
      end := end + cmd;
    } else {
      c := Bad;
    }
  }

  // What remains to be run, before and after one more command c.
  lemma Iteration(base: bytes, d: bytes, room: nat, c: Command, goal: Outcome, out: bytes)
    requires d != [] && c == ReadCommand(base, d, room)
    requires goal == PrependOut(out, Run(base, d, room))
    ensures c.Bad? ==> goal == Rejected
    ensures c.Wild? ==> goal == Undefined
    ensures c.Emit? ==> |c.out| <= room && goal == PrependOut(out + c.out, Run(base, c.rest, room - |c.out|))
  {
    if c.Emit? {
      ReplayEmit(Reader(base), d, room, goal, out);
    }
  }

  lemma ReplayEmit(read: (bytes, nat) -> Command, d: bytes, room: nat, goal: Outcome, out: bytes)
    requires d != [] && read(d, room).Emit? && |read(d, room).rest| < |d| && |read(d, room).out| <= room
    requires goal == PrependOut(out, Replay(read, d, room))
    ensures goal == PrependOut(out + read(d, room).out,
                               Replay(read, read(d, room).rest, room - |read(d, room).out|))
  {
    var c := read(d, room);
    var more := Replay(read, c.rest, room - |c.out|);
    if more.Applied? {
      assert out + c.out + more.out == out + (c.out + more.out);
    }
  }

  lemma NothingLeft(base: bytes, room: nat, goal: Outcome, out: bytes)
    requires goal == PrependOut(out, Run(base, [], room))
    ensures goal == if room == 0 then Applied(out) else Rejected
  {
    assert out + [] == out;
  }

  lemma NothingDone(o: Outcome)
    ensures o == PrependOut([], o)
  {
    if o.Applied? {
      assert [] + o.out == o.out;
    }
  }

  method Memcpy(res: array<byte>, at: nat, out: bytes)
    requires at + |out| <= res.Length
    modifies res
    ensures res[..at + |out|] == old(res[..at]) + out
  {
    ghost var prefix := res[..at];
    forall k | 0 <= k < |out| {
      res[at + k] := out[k];
    }
    assert res[..at] == prefix;
    assert res[at..at + |out|] == out;
  }

  // One command: c says what it was, and if it could be run its bytes are in res.
  method RunCommand(base: bytes, delta: bytes, pos: nat, res: array<byte>, done: nat,
                    ghost goal: Outcome, ghost out: bytes)
    returns (c: Command, end: nat)
    requires pos < |delta| && done <= res.Length && res[..done] == out
    requires goal == PrependOut(out, Run(base, delta[pos..], res.Length - done))
    modifies res
    ensures c.Bad? ==> goal == Rejected
    ensures c.Wild? ==> goal == Undefined
    ensures c.Emit? ==> pos < end <= |delta| && done + |c.out| <= res.Length && res[..done + |c.out|] == out + c.out
    ensures c.Emit? ==> goal == PrependOut(out + c.out, Run(base, delta[end..], res.Length - done - |c.out|))
  {
    c, end := NextCommand(base, delta, pos, res.Length - done);
    Iteration(base, delta[pos..], res.Length - done, c, goal, out);
    if c.Emit? {
      Memcpy(res, done, c.out);
    }
  }

  // The commands from position start, run into a result of size bytes.
  method RunCommands(base: bytes, delta: bytes, start: nat, size: nat) returns (r: Outcome)
    requires start <= |delta|
    ensures r == Run(base, delta[start..], size)
  {
    hide Run, PrependOut;
    var res := new byte[size];
    var done, pos := 0, start;
    ghost var goal, out: bytes := Run(base, delta[start..], size), [];
    NothingDone(goal);
    while pos < |delta|
      invariant start <= pos <= |delta| && 0 <= done <= size == res.Length && res[..done] == out
      invariant goal == PrependOut(out, Run(base, delta[pos..], size - done))
      decreases |delta| - pos
    {
      var c, end := RunCommand(base, delta, pos, res, done, goal, out);
      if c.Bad? {
        return Rejected;
      }
      if c.Wild? {
        return Undefined;
      }
      out := out + c.out;
      pos, done := end, done + |c.out|;
    }
    assert delta[pos..] == [];
    NothingLeft(base, size - done, goal, out);
    if done < size {
      return Rejected;
    }
    assert res[..] == res[..done];
    r := Applied(res[..]);
  }

  // git_delta_apply
  method ApplyDelta(base: bytes, delta: bytes) returns (r: Outcome)
    ensures r == Apply(base, delta)
  {
    assert delta[0..] == delta;
    var h, pos := ReadHeader(delta, 0);
    if h.TooWide? {
      return Undefined;
    }
    if h.Truncated? || h.size != |base| {
      return Rejected;
    }
    var h', pos' := ReadHeader(delta, pos);
    if h'.TooWide? {
      return Undefined;
    }
    if h'.Truncated? {
      return Rejected;
    }
    r := RunCommands(base, delta, pos', h'.size);
  }
}
