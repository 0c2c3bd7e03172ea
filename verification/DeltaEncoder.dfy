// The encoder of delta.c, and the round trip with the decoder.

module DeltaEncoder {
  import opened Bytes
  import opened DeltaFormat
  import opened RollingHash
  import opened RabinHash
  import opened DeltaIndex
  import opened DeltaPlaces

  // The header, the count slot and the first window, and the biggest copy command.
  const MAX_OP_SIZE := 5 + 5 + 1 + WINDOW + 7

  // Nothing: there was no target. TooBig: the size limit was passed. Wrapped: the unsigned
  // int product that grows the buffer did not fit; the C code would go on in a buffer that
  // is too small.
  datatype Result = Nothing | Delta(out: bytes) | TooBig | Wrapped

  // ops are commands that write the first n bytes of the target.
  ghost predicate Writes(base: bytes, ops: bytes, trg: bytes, n: nat) {
    n <= |trg| && Run(base, ops, n) == Applied(trg[..n])
  }

  // ----- commands put at the end of ops

  lemma WritesNothing(base: bytes, trg: bytes)
    ensures Writes(base, [], trg, 0)
  {
    assert Replay(Reader(base), [], 0) == Applied([]);
  }

  lemma WritesMore(base: bytes, ops: bytes, trg: bytes, n: nat, op: bytes, len: nat)
    requires Writes(base, ops, trg, n) && n + len <= |trg|
    requires Run(base, op, len) == Applied(trg[n..n + len])
    ensures Writes(base, ops + op, trg, n + len)
  {
    hide Run;
    RunAppend(base, ops, trg[..n], op, trg[n..n + len]);
    assert trg[..n] + trg[n..n + len] == trg[..n + len];
  }

  lemma WritesCopy(base: bytes, ops: bytes, trg: bytes, n: nat, off: nat, len: nat)
    requires |base| <= 0x8000_0000 && 0 < len <= COPY_MAX
    requires Writes(base, ops, trg, n) && Match(base, trg, off, n, len)
    ensures Writes(base, ops + CopyBytes(off, len), trg, n + len)
  {
    RunCopy(base, off, len);
    WritesMore(base, ops, trg, n, CopyBytes(off, len), len);
  }

  lemma WritesInsert(base: bytes, ops: bytes, trg: bytes, n: nat, len: nat)
    requires Writes(base, ops, trg, n) && 0 < len < 0x80 && n + len <= |trg|
    ensures Writes(base, ops + ([len] + trg[n..n + len]), trg, n + len)
  {
    RunInsert(base, trg[n..n + len]);
    WritesMore(base, ops, trg, n, [len] + trg[n..n + len], len);
  }

  lemma SizeBytesFit(n: nat)
    requires n < WORD
    ensures 1 <= |SizeBytes(n)| <= 5
  {
    var n1 := n / 0x80;
    var n2 := n1 / 0x80;
    var n3 := n2 / 0x80;
    var n4 := n3 / 0x80;
    assert n4 < 0x80 && |SizeBytes(n4)| == 1;
    assert |SizeBytes(n3)| <= 2;
    assert |SizeBytes(n2)| <= 3;
    assert |SizeBytes(n1)| <= 4;
  }

  // A delta of a header and commands that write the whole target is read back as the target.
  lemma DeltaIsApplied(base: bytes, ops: bytes, trg: bytes)
    requires |base| < WORD && |trg| < WORD && Writes(base, ops, trg, |trg|)
    ensures Apply(base, HeaderBytes(base, trg) + ops) == Applied(trg)
  {
    hide Run, ReadSize, SizeBytes;
    ReadSizeBytes(|base|, 1, SizeBytes(|trg|) + ops);
    ReadSizeBytes(|trg|, 1, ops);
    assert HeaderBytes(base, trg) + ops == SizeBytes(|base|) + (SizeBytes(|trg|) + ops);
    assert trg[..|trg|] == trg;
  }

  // ----- writing into the buffer

  // A size of the header.
  method PutSize(buf: array<byte>, at: nat, n: nat) returns (end: nat)
    requires n < WORD && at + 5 <= buf.Length
    modifies buf
    ensures end == at + |SizeBytes(n)| && end <= at + 5
    ensures buf[..end] == old(buf[..at]) + SizeBytes(n)
  {
    var i := n;
    end := at;
    SizeBytesFit(n);
    ghost var before := buf[..at];
    while i >= 0x80
      invariant at <= end && end + |SizeBytes(i)| == at + |SizeBytes(n)|
      invariant buf[..end] + SizeBytes(i) == before + SizeBytes(n)
    {
      assert buf[..end] + SizeBytes(i) == buf[..end] + [i % 0x80 + 0x80] + SizeBytes(i / 0x80);
      ghost var done := buf[..end];
      buf[end] := i % 0x80 + 0x80;
      end := end + 1;
      assert buf[..end] == done + [i % 0x80 + 0x80];
      i := i / 0x80;
    }
    ghost var done := buf[..end];
    buf[end] := i;
    end := end + 1;
    assert buf[..end] == done + [i];
  }

  function Weight(k: nat): nat {
    if k == 0 then 1 else 2 * Weight(k - 1)
  }

  lemma {:induction false} PushOperand(v: bytes, b: byte)
    ensures OperandBytes(v + [b]) == OperandBytes(v) + (if b == 0 then [] else [b])
    ensures Flags(v + [b]) == Flags(v) + (if b == 0 then 0 else Weight(|v|))
  {
    if v == [] {
      assert v + [b] == [b];
    } else {
      PushOperand(v[1..], b);
      var w, tail := v + [b], if b == 0 then [] else [b];
      assert w[0] == v[0] && w[1..] == v[1..] + [b];
      var head := if v[0] == 0 then [] else [v[0]];
      assert head + (OperandBytes(v[1..]) + tail) == head + OperandBytes(v[1..]) + tail;
    }
  }

  // An operand byte and its bit in the command, unless the byte is zero. v holds the operands
  // before this one, and front the bytes before them.
  method PutOperand(buf: array<byte>, at: nat, b: byte, flags: nat, bit: nat, ghost front: bytes, ghost v: bytes)
    returns (end: nat, flags': nat)
    requires at < buf.Length && buf[..at] == front + OperandBytes(v)
    requires flags == Flags(v) && bit == Weight(|v|)
    modifies buf
    ensures at <= end <= at + (if b == 0 then 0 else 1) && end <= buf.Length
    ensures buf[..end] == front + OperandBytes(v + [b])
    ensures flags' == Flags(v + [b])
  {
    end, flags' := at, flags;
    PushOperand(v, b);
    if b != 0 {
      ghost var before := buf[..at];
      buf[at] := b;
      end, flags' := at + 1, flags + bit;
      assert buf[..end] == before + [b];
    }
  }

  method PutOffset(buf: array<byte>, at: nat, o0: byte, o1: byte, o2: byte, o3: byte)
    returns (end: nat, flags: nat)
    requires at + 4 <= buf.Length
    modifies buf
    ensures at <= end <= at + 4 && flags == Flags([o0, o1, o2, o3])
    ensures buf[..end] == old(buf[..at]) + OperandBytes([o0, o1, o2, o3])
  {
    ghost var front, v: bytes := buf[..at], [];
    end, flags := PutOperand(buf, at, o0, 0, 0x01, front, v);
    v := v + [o0];
    end, flags := PutOperand(buf, end, o1, flags, 0x02, front, v);
    v := v + [o1];
    end, flags := PutOperand(buf, end, o2, flags, 0x04, front, v);
    v := v + [o2];
    end, flags := PutOperand(buf, end, o3, flags, 0x08, front, v);
    assert v + [o3] == [o0, o1, o2, o3];
  }

  method PutOperands(buf: array<byte>, at: nat, o0: byte, o1: byte, o2: byte, o3: byte, l0: byte, l1: byte)
    returns (end: nat, flags: nat)
    requires at + 6 <= buf.Length
    modifies buf
    ensures at <= end <= at + (if l1 == 0 then 5 else 6) && flags == Flags([o0, o1, o2, o3, l0, l1, 0])
    ensures buf[..end] == old(buf[..at]) + OperandBytes([o0, o1, o2, o3, l0, l1, 0])
  {
    ghost var front, v := buf[..at], [o0, o1, o2, o3];
    assert Weight(4) == 0x10 && Weight(5) == 0x20;
    end, flags := PutOffset(buf, at, o0, o1, o2, o3);
    end, flags := PutOperand(buf, end, l0, flags, 0x10, front, v);
    v := v + [l0];
    end, flags := PutOperand(buf, end, l1, flags, 0x20, front, v);
    v := v + [l1];
    PushOperand(v, 0);
    assert v + [0] == [o0, o1, o2, o3, l0, l1, 0];
  }

  lemma SlotFilled(front: bytes, slot: byte, back: bytes, b: byte)
    ensures (front + [slot] + back)[|front| := b] == front + ([b] + back)
  {}

  // A copy command: the operands go behind the place of the command byte, which comes last.
  method PutCopy(buf: array<byte>, at: nat, off: nat, len: nat) returns (end: nat)
    requires off < WORD && len <= COPY_MAX && at + 7 <= buf.Length
    modifies buf
    ensures at < end <= at + (if len < 0x100 then 6 else 7)
    ensures buf[..end] == old(buf[..at]) + CopyBytes(off, len)
  {
    hide OperandBytes, Flags;
    ghost var v, before, slot := Operands(off, len), buf[..at], buf[at];
    assert buf[..at + 1] == before + [slot];
    var flags;
    end, flags := PutOperands(buf, at + 1, Byte(off, 1), Byte(off, 0x100), Byte(off, 0x1_0000), Byte(off, 0x100_0000),
                              Byte(len, 1), Byte(len, 0x100));
    FlagsOf7(v);
    ghost var written := buf[..end];
    assert written == before + [slot] + OperandBytes(v);
    buf[at] := 0x80 + flags;
    assert buf[..end] == written[at := 0x80 + flags];
    SlotFilled(before, slot, OperandBytes(v), 0x80 + flags);
  }

  // ----- the length of a delta

  // What a delta may take for its first n bytes of target.
  function Bound(n: nat): nat {
    10 + (8 * n + 2) / 5
  }

  // The buffer is not longer than that at data, with inscnt bytes in the open insert. A literal
  // with the place of its count, and a copy of four bytes, take eight bytes for five.
  predicate Within(bufpos: nat, data: nat, inscnt: nat) {
    5 * bufpos <= 50 + 8 * data + if inscnt == 0 then 0 else 5 - 3 * inscnt
  }

  // ----- the state of the encoder

  // written is the buffer up to bufpos: the header, ops, and if inscnt is not zero a place for
  // the count and the last inscnt bytes before data.
  ghost predicate Coded(written: bytes, base: bytes, trg: bytes, ops: bytes, data: nat, inscnt: nat) {
    var done := HeaderBytes(base, trg) + ops;
    && inscnt <= 0x7f && inscnt <= data <= |trg|
    && Writes(base, ops, trg, data - inscnt)
    && if inscnt == 0 then written == done
       else |written| == |done| + 1 + inscnt && written[..|done|] == done
            && written[|done| + 1..] == trg[data - inscnt..data]
  }

  // buf[bufpos++] = *data++, behind a new place for the count if there is none.
  method PutLiteral(buf: array<byte>, bufpos: nat, base: bytes, trg: bytes, data: nat, inscnt: nat, ghost ops: bytes)
    returns (end: nat)
    requires bufpos + 2 <= buf.Length && data < |trg| && inscnt < 0x7f
    requires Coded(buf[..bufpos], base, trg, ops, data, inscnt)
    modifies buf
    ensures end == bufpos + (if inscnt == 0 then 2 else 1)
    ensures Coded(buf[..end], base, trg, ops, data + 1, inscnt + 1)
  {
    ghost var done, before := HeaderBytes(base, trg) + ops, buf[..bufpos];
    end := if inscnt == 0 then bufpos + 1 else bufpos;
    buf[end] := trg[data];
    end := end + 1;
    ghost var after := buf[..end];
    assert after[..bufpos] == before;
    assert after[..|done|] == before[..|done|] == done;
    if inscnt == 0 {
      assert after[|done| + 1..] == [trg[data]] == trg[data..data + 1];
    } else {
      assert after[|done| + 1..] == before[|done| + 1..] + [trg[data]];
      assert trg[data - inscnt..data] + [trg[data]] == trg[data - inscnt..data + 1];
    }
  }

  lemma CodedFits(written: bytes, base: bytes, trg: bytes, ops: bytes, data: nat, inscnt: nat)
    requires Coded(written, base, trg, ops, data, inscnt) && 0 < inscnt
    ensures inscnt <= data <= |trg| && inscnt <= 0x7f && inscnt < |written|
  {}

  // Filling in the count.
  lemma CodedClosed(before: bytes, base: bytes, trg: bytes, ops: bytes, data: nat, inscnt: nat)
    requires 0 < inscnt && Coded(before, base, trg, ops, data, inscnt)
    ensures inscnt < |before| && Coded(before[|before| - inscnt - 1 := inscnt as byte], base, trg,
                                       ops + ([inscnt] + trg[data - inscnt..data]), data, 0)
  {
    hide Writes, HeaderBytes;
    var head, insert := HeaderBytes(base, trg), trg[data - inscnt..data];
    var done, after := head + ops, before[|before| - inscnt - 1 := inscnt as byte];
    WritesInsert(base, ops, trg, data - inscnt, inscnt);
    CountPut(before, done, inscnt, insert);
    OpsAppended(head, ops, [inscnt] + insert);
  }

  lemma CountPut(before: bytes, done: bytes, count: byte, insert: bytes)
    requires |before| == |done| + 1 + |insert| && before[..|done|] == done && before[|done| + 1..] == insert
    ensures before[|done| := count] == done + ([count] + insert)
  {
    var after := before[|done| := count];
    assert after[..|done|] == before[..|done|] && after[|done| + 1..] == before[|done| + 1..];
  }

  lemma OpsAppended(head: bytes, ops: bytes, more: bytes)
    ensures (head + ops) + more == head + (ops + more)
  {}

  // buf[bufpos - inscnt - 1] = inscnt
  method CloseInsert(buf: array<byte>, bufpos: nat, base: bytes, trg: bytes, data: nat, inscnt: nat, ghost ops: bytes)
    returns (ghost ops': bytes)
    requires bufpos <= buf.Length && inscnt > 0
    requires Coded(buf[..bufpos], base, trg, ops, data, inscnt)
    modifies buf
    ensures Coded(buf[..bufpos], base, trg, ops', data, 0)
  {
    hide Coded;
    ghost var before := buf[..bufpos];
    CodedClosed(before, base, trg, ops, data, inscnt);
    CodedFits(before, base, trg, ops, data, inscnt);
    buf[bufpos - inscnt - 1] := inscnt;
    ops' := ops + ([inscnt] + trg[data - inscnt..data]);
    assert buf[..bufpos] == before[bufpos - inscnt - 1 := inscnt as byte];
  }

  // Taking the last byte of an insert back.
  lemma CodedBack(written: bytes, base: bytes, trg: bytes, ops: bytes, data: nat, inscnt: nat)
    requires Coded(written, base, trg, ops, data, inscnt) && 0 < inscnt
    ensures 1 < inscnt ==> Coded(written[..|written| - 1], base, trg, ops, data - 1, inscnt - 1)
    ensures inscnt == 1 ==> Coded(written[..|written| - 2], base, trg, ops, data - 1, 0)
  {
    var done := HeaderBytes(base, trg) + ops;
    if 1 < inscnt {
      var back := written[..|written| - 1];
      assert back[..|done|] == written[..|done|];
      assert back[|done| + 1..] == written[|done| + 1..][..inscnt - 1];
      assert trg[data - inscnt..data][..inscnt - 1] == trg[data - inscnt..data - 1];
    } else {
      assert written[..|written| - 2] == written[..|done|];
    }
  }

  lemma BackStep(written: bytes, bufpos: nat, base: bytes, trg: bytes, ops: bytes, data: nat, count: nat)
    requires bufpos <= |written| && 0 < count && Coded(written[..bufpos], base, trg, ops, data, count)
    ensures count < bufpos && 0 < data
    ensures 1 < count ==> Coded(written[..bufpos - 1], base, trg, ops, data - 1, count - 1)
    ensures count == 1 ==> Coded(written[..bufpos - 2], base, trg, ops, data - 1, 0)
  {
    CodedBack(written[..bufpos], base, trg, ops, data, count);
    assert written[..bufpos][..bufpos - 1] == written[..bufpos - 1];
    assert written[..bufpos][..bufpos - 2] == written[..bufpos - 2];
  }

  // The match is extended backwards over the bytes of the open insert. An insert that is used up
  // loses its place for the count, and its count is -1.
  method ExtendBack(bufpos: nat, base: bytes, trg: bytes, data: nat, inscnt: nat, moff: nat, msize: nat,
                    ghost written: bytes, ghost ops: bytes)
    returns (bufpos': nat, data': nat, moff': nat, msize': nat, count: int)
    requires 0 < inscnt && bufpos == |written|
    requires Coded(written, base, trg, ops, data, inscnt) && Match(base, trg, moff, data, msize)
    ensures bufpos' <= bufpos && data' <= data && data - data' == msize' - msize <= inscnt
    ensures data - data' == moff - moff' == Back(base, trg, moff, data, inscnt)
    ensures count == -1 || 0 < count <= inscnt
    ensures bufpos - bufpos' == data - data' + (if count < 0 then 1 else 0)
    ensures inscnt - (data - data') == if count < 0 then 0 else count
    ensures Coded(written[..bufpos'], base, trg, ops, data', if count < 0 then 0 else count)
    ensures Match(base, trg, moff', data', msize')
  {
    hide Coded;
    CodedFits(written, base, trg, ops, data, inscnt);
    bufpos', data', moff', msize', count := bufpos, data, moff, msize, inscnt;
    assert written[..bufpos] == written;
    while moff' > 0 && base[moff' - 1] == trg[data' - 1]
      invariant 0 < count <= inscnt && count <= data' && count < bufpos' <= bufpos
      invariant data - data' == inscnt - count == msize' - msize == bufpos - bufpos' == moff - moff'
      invariant Back(base, trg, moff, data, inscnt) == data - data' + Back(base, trg, moff', data', count)
      invariant moff' <= |base| && data' <= |trg|
      invariant Coded(written[..bufpos'], base, trg, ops, data', count)
      invariant Match(base, trg, moff', data', msize')
      decreases count
    {
      MatchBack(base, trg, moff', data', msize');
      BackStep(written, bufpos', base, trg, ops, data', count);
      msize', moff', data', bufpos', count := msize' + 1, moff' - 1, data' - 1, bufpos' - 1, count - 1;
      if count != 0 {
        continue;
      }
      bufpos', count := bufpos' - 1, count - 1;
      break;
    }
  }

  lemma WithinBack(bufpos: nat, data: nat, inscnt: nat, bufpos': nat, data': nat, count: int)
    requires Within(bufpos, data, inscnt) && 0 < inscnt && data' <= data && count != 0
    requires bufpos - bufpos' == data - data' + (if count < 0 then 1 else 0)
    requires inscnt - (data - data') == if count < 0 then 0 else count
    ensures Within(bufpos', data', 1)
  {}

  // The open insert, if there is one, gives bytes to the match and is closed.
  method CloseBeforeCopy(buf: array<byte>, bufpos: nat, base: bytes, trg: bytes, data: nat, inscnt: nat,
                         moff: nat, msize: nat, ghost ops: bytes)
    returns (bufpos': nat, data': nat, moff': nat, msize': nat, ghost ops': bytes)
    requires bufpos < buf.Length && Within(bufpos, data, inscnt)
    requires Coded(buf[..bufpos], base, trg, ops, data, inscnt) && Match(base, trg, moff, data, msize)
    modifies buf
    ensures bufpos' <= bufpos && data' <= data && data - data' == msize' - msize <= inscnt
    ensures data - data' == moff - moff' == Back(base, trg, moff, data, inscnt)
    ensures bufpos - bufpos' == Insert(inscnt) - Insert(inscnt - (data - data'))
    ensures Within(bufpos', data', 1)
    ensures Coded(buf[..bufpos'], base, trg, ops', data', 0) && Match(base, trg, moff', data', msize')
  {
    hide Coded, Match;
    bufpos', data', moff', msize', ops' := bufpos, data, moff, msize, ops;
    if inscnt > 0 {
      ghost var written := buf[..bufpos];
      var count;
      bufpos', data', moff', msize', count := ExtendBack(bufpos, base, trg, data, inscnt, moff, msize, written, ops);
      assert buf[..bufpos'] == written[..bufpos'];
      WithinBack(bufpos, data, inscnt, bufpos', data', count);
      if count > 0 {
        ops' := CloseInsert(buf, bufpos', base, trg, data', count, ops);
      } else {
        // buf[bufpos - inscnt - 1] = inscnt with inscnt == -1, where the next command will go
        buf[bufpos'] := 0xff;
        assert buf[..bufpos'] == written[..bufpos'];
      }
    }
  }

  // ----- the search

  // The bytes from ref and from data agree for n bytes, and for no more within limit.
  method MatchLength(base: bytes, trg: bytes, ref: nat, data: nat, limit: nat) returns (n: nat)
    requires ref + limit <= |base| && data + limit <= |trg|
    ensures n <= limit && Match(base, trg, ref, data, n)
    ensures n < limit ==> base[ref + n] != trg[data + n]
    ensures ref + limit == |base| || data + limit == |trg| ==> n == Agree(base, trg, ref, data)
  {
    n := 0;
    while n < limit && trg[data + n] == base[ref + n]
      invariant n <= limit && Match(base, trg, ref, data, n)
    {
      MatchMore(base, trg, ref, data, n);
      n := n + 1;
    }
    if ref + limit == |base| || data + limit == |trg| {
      AgreeIs(base, trg, ref, data, n);
    }
  }

  // Looks through the bucket of val, the hash of the window that ends at data, for a match that
  // is longer than the one already known.
  method FindMatch(index: Index, val: bv32, trg: bytes, data: nat, moff: nat, msize: nat)
    returns (moff': nat, msize': nat)
    requires index.InBase() && WINDOW <= data < |trg|
    requires val == Hash(trg[data - 15..data + 1])
    requires Match(index.src, trg, moff, data, msize)
    ensures (moff', msize') == Best(index.src, trg, index.Chain(Bucket(val, index.mask)), val, data, moff, msize)
    ensures Match(index.src, trg, moff', data, msize')
    ensures msize' > msize || (msize' == msize && moff' == moff)
    ensures index.Ordered() && msize' < GOOD_MATCH ==>
      NoLonger(index.src, trg, index.Chain(Bucket(val, index.mask)), val, data, msize')
  {
    hide Match, NoLonger, Hash;
    moff', msize' := moff, msize;
    var chain := index.Chain(Bucket(val, index.mask));
    var j := 0;
    assert chain[0..] == chain;
    while j < |chain|
      invariant 0 <= j <= |chain|
      invariant Best(index.src, trg, chain, val, data, moff, msize)
             == Best(index.src, trg, chain[j..], val, data, moff', msize')
      decreases |chain| - j
    {
      var entry := chain[j];
      assert entry in chain && chain[j..][0] == entry && chain[j..][1..] == chain[j + 1..];
      j := j + 1;
      if entry.val != val {
        continue;
      }
      var refSize := |index.src| - entry.at;
      if refSize > |trg| - data {
        refSize := |trg| - data;
      }
      if refSize <= msize' {
        break;
      }
      var n := MatchLength(index.src, trg, entry.at, data, refSize);
      if msize' < n {
        msize', moff' := n, entry.at;
        if msize' >= GOOD_MATCH {
          break;
        }
      }
    }
    BestMatches(index.src, trg, chain, val, data, moff, msize);
    if index.Ordered() {
      BestIsLongest(index.src, trg, chain, val, data, moff, msize);
    }
  }

  // ----- the encoder

  // The new size of a buffer that is nearly full, in unsigned int arithmetic.
  function GrownSize(bufsize: nat, maxSize: nat): nat {
    var size := bufsize * 3 % WORD / 2;
    if maxSize > 0 && size >= maxSize then maxSize + MAX_OP_SIZE + 1 else size
  }

  method Realloc(buf: array<byte>, size: nat) returns (buf': array<byte>)
    requires size >= buf.Length
    ensures fresh(buf') && buf'.Length == size && buf'[..buf.Length] == buf[..]
  {
    buf' := new byte[size];
    forall k | 0 <= k < buf.Length {
      buf'[k] := buf[k];
    }
  }

  // The first window goes to the buffer as an open insert.
  method FirstWindow(t: Table, u: Table, trg: bytes, buf: array<byte>, at: nat)
    returns (data: nat, val: bv32)
    requires ValidTables(t, u) && at + WINDOW <= buf.Length
    modifies buf
    ensures data <= WINDOW && data <= |trg| && (data < |trg| ==> data == WINDOW)
    ensures buf[..at] == old(buf[..at]) && buf[at..at + data] == trg[..data]
    ensures val == Hash(trg[..data]) && val < 0x8000_0000
  {
    val, data := 0, 0;
    while data < WINDOW && data < |trg|
      invariant data <= WINDOW && data <= |trg|
      invariant buf[..at] == old(buf[..at]) && buf[at..at + data] == trg[..data]
      invariant val == Hash(trg[..data]) && val < 0x8000_0000
    {
      HashPush(trg[..data], trg[data]);
      assert trg[..data] + [trg[data]] == trg[..data + 1];
      ghost var window := buf[at..at + data];
      buf[at + data] := trg[data];
      val := TakeIn(t, u, val, trg[data]);
      data := data + 1;
      assert buf[at..at + data] == window + [trg[data - 1]];
    }
  }

  // The header and the first window.
  method Start(t: Table, u: Table, base: bytes, trg: bytes, buf: array<byte>)
    returns (bufpos: nat, data: nat, val: bv32)
    requires ValidTables(t, u) && |base| <= 0x8000_0000 && 0 < |trg| < WORD && 36 <= buf.Length
    modifies buf
    ensures 0 < data <= WINDOW && data <= |trg| && (data < |trg| ==> data == WINDOW)
    ensures bufpos <= 27 && bufpos == |HeaderBytes(base, trg)| + 1 + data && Within(bufpos, data, data)
    ensures Coded(buf[..bufpos], base, trg, [], data, data)
    ensures val == Hash(trg[..data]) && val < 0x8000_0000
  {
    hide ValidTables, Hash, Writes, SizeBytes;
    bufpos := PutSize(buf, 0, |base|);
    bufpos := PutSize(buf, bufpos, |trg|);
    ghost var head, at := HeaderBytes(base, trg), bufpos;
    assert buf[..at] == head;
    data, val := FirstWindow(t, u, trg, buf, bufpos + 1);
    bufpos := bufpos + 1 + data;
    ghost var written := buf[..bufpos];
    WritesNothing(base, trg);
    assert head + [] == head;
    assert written[..at] == buf[..at + 1][..at] == head;
    assert written[at + 1..] == trg[..data] == trg[0..data];
  }

  // Too little of a match: one byte goes to the open insert, which is closed when it is full.
  method Literal(buf: array<byte>, bufpos: nat, base: bytes, trg: bytes, data: nat, inscnt: nat, ghost ops: bytes)
    returns (bufpos': nat, inscnt': nat, ghost ops': bytes)
    requires bufpos + 2 <= buf.Length && data < |trg| && inscnt < 0x7f
    requires Coded(buf[..bufpos], base, trg, ops, data, inscnt)
    modifies buf
    ensures bufpos' == bufpos + (if inscnt == 0 then 2 else 1) && inscnt' == (inscnt + 1) % 0x7f
    ensures Coded(buf[..bufpos'], base, trg, ops', data + 1, inscnt')
  {
    hide Coded;
    bufpos' := PutLiteral(buf, bufpos, base, trg, data, inscnt, ops);
    inscnt', ops' := inscnt + 1, ops;
    if inscnt' == 0x7f {
      ops' := CloseInsert(buf, bufpos', base, trg, data + 1, inscnt', ops);
      inscnt' := 0;
    }
  }

  lemma CodedCopy(written: bytes, base: bytes, trg: bytes, ops: bytes, data: nat, off: nat, len: nat, op: bytes)
    requires |base| <= 0x8000_0000 && 0 < len <= COPY_MAX && op == CopyBytes(off, len)
    requires Coded(written, base, trg, ops, data, 0) && Match(base, trg, off, data, len)
    ensures Coded(written + op, base, trg, ops + op, data + len, 0)
  {
    hide Writes, CopyBytes, SizeBytes;
    WritesCopy(base, ops, trg, data, off, len);
    assert HeaderBytes(base, trg) + ops + op == HeaderBytes(base, trg) + (ops + op);
  }

  // Copies as much of a match as one command can hold.
  method PutMatch(buf: array<byte>, bufpos: nat, base: bytes, trg: bytes, data: nat, moff: nat, msize: nat,
                  ghost ops: bytes)
    returns (bufpos': nat, left: nat, ghost ops': bytes)
    requires bufpos + 7 <= buf.Length && 0 < msize && |base| <= 0x8000_0000
    requires Coded(buf[..bufpos], base, trg, ops, data, 0) && Match(base, trg, moff, data, msize)
    modifies buf
    ensures left < msize && msize - left == (if msize < COPY_MAX then msize else COPY_MAX)
    ensures bufpos' <= bufpos + (if msize < 0x100 then 6 else 7)
    ensures bufpos' == bufpos + |CopyBytes(moff, msize - left)|
    ensures Match(base, trg, moff + msize - left, data + msize - left, left)
    ensures Coded(buf[..bufpos'], base, trg, ops', data + msize - left, 0)
  {
    hide Coded, Match, CopyBytes;
    left := if msize < COPY_MAX then 0 else msize - COPY_MAX;
    MatchSplit(base, trg, moff, data, msize - left, left);
    ghost var op, written := CopyBytes(moff, msize - left), buf[..bufpos];
    bufpos' := PutCopy(buf, bufpos, moff, msize - left);
    assert |buf[..bufpos']| == |written| + |op|;
    CodedCopy(written, base, trg, ops, data, moff, msize - left, op);
    ops' := ops + op;
  }

  // A match: the open insert is closed, and a command copies the match. What is left of it, when
  // it is too long for one command, goes on behind it.
  method Copy(buf: array<byte>, bufpos: nat, base: bytes, trg: bytes, data: nat, inscnt: nat,
              moff: nat, msize: nat, ghost ops: bytes)
    returns (bufpos': nat, data': nat, moff': nat, left: nat, ghost ops': bytes)
    requires bufpos + 7 <= buf.Length && inscnt < 0x7f && 4 <= msize && |base| <= 0x8000_0000
    requires Coded(buf[..bufpos], base, trg, ops, data, inscnt) && Match(base, trg, moff, data, msize)
    requires Within(bufpos, data, inscnt)
    modifies buf
    ensures bufpos' <= bufpos + 7 && data + 4 <= data' <= |trg| && Within(bufpos', data', 0)
    ensures Coded(buf[..bufpos'], base, trg, ops', data', 0) && Match(base, trg, moff', data', left)
    ensures forall p: Place :: p.Pos() == bufpos && p.data == data && p.inscnt == inscnt ==>
      Place(bufpos', data', 0, moff', left) == WithCopy(base, trg, p, moff, msize)
  {
    hide Coded;
    var msize';
    bufpos', data', moff', msize', ops' := CloseBeforeCopy(buf, bufpos, base, trg, data, inscnt, moff, msize, ops);
    bufpos', left, ops' := PutMatch(buf, bufpos', base, trg, data', moff', msize', ops');
    data', moff' := data' + (msize' - left), moff' + (msize' - left);
  }

  // The variables of the encoder's loop.
  datatype State = State(bufpos: nat, data: nat, inscnt: nat, moff: nat, msize: nat, val: bv32)

  // At the head of the loop: a match may be carried over from the last copy, and the hash is that
  // of the last sixteen bytes, unless it will not be needed.
  ghost predicate Encoding(written: bytes, base: bytes, trg: bytes, ops: bytes, s: State) {
    && Within(s.bufpos, s.data, s.inscnt) && s.inscnt < 0x7f && s.data <= |trg|
    && Coded(written, base, trg, ops, s.data, s.inscnt)
    && Match(base, trg, s.moff, s.data, s.msize)
    && (s.data < |trg| ==> WINDOW <= s.data)
    && (s.data < |trg| && s.msize < GOOD_MATCH ==> s.val == Hash(trg[s.data - WINDOW..s.data]))
  }

  // What a search for the place has found.
  ghost predicate IsFound(ix: Blocks, trg: bytes, data: nat, moff: nat, msize: nat, moff': nat, msize': nat) {
    forall p: Place :: p.Goes(trg) && p.data == data && p.moff == moff && p.msize == msize ==>
      (moff', msize') == Found(ix, trg, p)
  }

  lemma FoundIs(index: Index, trg: bytes, data: nat, moff: nat, msize: nat, val: bv32, moff': nat, msize': nat)
    requires WINDOW <= data < |trg| && msize < GOOD_MATCH ==> val == Hash(trg[data - 15..data + 1])
    requires if msize >= GOOD_MATCH then moff' == moff && msize' == msize
             else (moff', msize') == Best(index.src, trg, index.Chain(Bucket(val, index.mask)), val, data, moff, msize)
    ensures IsFound(index.View(), trg, data, moff, msize, moff', msize')
  {
    hide Hash, Best, Bucket;
  }

  // The hash moves on by one byte, and the bucket it selects is searched.
  method Search(t: Table, u: Table, index: Index, trg: bytes, data: nat, moff: nat, msize: nat, val: bv32)
    returns (moff': nat, msize': nat, val': bv32)
    requires ValidTables(t, u) && index.InBase() && WINDOW <= data < |trg|
    requires Match(index.src, trg, moff, data, msize)
    requires msize < GOOD_MATCH ==> val == Hash(trg[data - WINDOW..data])
    ensures Match(index.src, trg, moff', data, msize')
    ensures msize' < 4 ==> val' == Hash(trg[data - 15..data + 1])
    ensures IsFound(index.View(), trg, data, moff, msize, moff', msize')
  {
    hide Hash, Best, Bucket, Match, IsFound, ValidTables, NoLonger;
    moff', msize', val' := moff, msize, val;
    if msize < GOOD_MATCH {
      ghost var window := trg[data - WINDOW..data];
      val' := Roll(t, u, val, trg[data - WINDOW], trg[data], window);
      assert window[1..] + [trg[data]] == trg[data - 15..data + 1];
      moff', msize' := FindMatch(index, val', trg, data, moff, msize);
    }
    FoundIs(index, trg, data, moff, msize, val', moff', msize');
  }

  // The variables stand at this place.
  predicate Stands(s: State, p: Place) {
    s.bufpos == p.Pos() && s.data == p.data && s.inscnt == p.inscnt && s.moff == p.moff && s.msize == p.msize
  }

  // A pass that finds too little of a match.
  method LiteralPass(buf: array<byte>, base: bytes, trg: bytes, s: State, moff: nat, val: bv32, ghost ops: bytes)
    returns (s': State, ghost ops': bytes)
    requires s.data < |trg| && s.bufpos + 2 <= buf.Length && moff <= |base|
    requires Encoding(buf[..s.bufpos], base, trg, ops, s) && val == Hash(trg[s.data - 15..s.data + 1])
    modifies buf
    ensures s.data < s'.data && s'.bufpos <= s.bufpos + 7 && s'.bufpos <= buf.Length
    ensures Encoding(buf[..s'.bufpos], base, trg, ops', s')
    ensures forall p: Place :: Stands(s, p) ==> Stands(s', WithLiteral(p, moff))
  {
    hide Coded, Hash;
    var bufpos, inscnt;
    bufpos, inscnt, ops' := Literal(buf, s.bufpos, base, trg, s.data, s.inscnt, ops);
    s' := State(bufpos, s.data + 1, inscnt, moff, 0, val);
  }

  // A pass that finds a match.
  method CopyPass(t: Table, u: Table, buf: array<byte>, base: bytes, trg: bytes, s: State, moff: nat, msize: nat,
                  val: bv32, ghost ops: bytes)
    returns (s': State, ghost ops': bytes)
    requires ValidTables(t, u) && |base| <= 0x8000_0000 && s.data < |trg| && s.bufpos + 7 <= buf.Length
    requires 4 <= msize && Match(base, trg, moff, s.data, msize)
    requires Encoding(buf[..s.bufpos], base, trg, ops, s)
    modifies buf
    ensures s.data < s'.data && s'.bufpos <= s.bufpos + 7 && s'.bufpos <= buf.Length
    ensures Encoding(buf[..s'.bufpos], base, trg, ops', s')
    ensures forall p: Place :: Stands(s, p) ==> Stands(s', WithCopy(base, trg, p, moff, msize))
  {
    hide Coded, Match, Hash, ValidTables;
    var bufpos, data, moff', left;
    bufpos, data, moff', left, ops' := Copy(buf, s.bufpos, base, trg, s.data, s.inscnt, moff, msize, ops);
    var val' := val;
    if left < GOOD_MATCH {
      val' := BlockHash(t, u, trg, data - WINDOW - 1);
    }
    s' := State(bufpos, data, 0, moff', left, val');
  }

  // One pass of the loop.
  method Pass(t: Table, u: Table, index: Index, trg: bytes, buf: array<byte>, s: State, ghost p: Place,
              ghost ops: bytes)
    returns (s': State, ghost ops': bytes)
    requires ValidTables(t, u) && index.InBase() && |index.src| <= 0x8000_0000
    requires s.data < |trg| && s.bufpos + 7 <= buf.Length
    requires Encoding(buf[..s.bufpos], index.src, trg, ops, s) && Stands(s, p)
    modifies buf
    ensures s.data < s'.data && s'.bufpos <= s.bufpos + 7
    ensures Encoding(buf[..s'.bufpos], index.src, trg, ops', s')
    ensures p.Goes(trg) && Stands(s', Step(index.View(), trg, p))
  {
    hide Found, WithLiteral, WithCopy;
    var moff, msize, val := Search(t, u, index, trg, s.data, s.moff, s.msize, s.val);
    if msize < 4 {
      s', ops' := LiteralPass(buf, index.src, trg, s, moff, val, ops);
    } else {
      s', ops' := CopyPass(t, u, buf, index.src, trg, s, moff, msize, val, ops);
    }
  }

  // ----- the size of the buffer

  // Without a limit the buffer grows by a half each time, until the product wraps.
  function Size(k: nat): nat {
    if k == 0 then 8192 else Size(k - 1) * 3 / 2
  }

  const LAST_SIZE := 1_570_824_171

  // The position from which the buffer is grown when it has this size.
  const TOO_FULL := LAST_SIZE - MAX_OP_SIZE

  lemma {:induction false} SizeFromFirst(k: nat)
    ensures 8192 <= Size(k)
  {
    if k > 0 {
      SizeFromFirst(k - 1);
    }
  }

  lemma {:induction false} SizesGrow(j: nat, k: nat)
    requires j <= k
    ensures 8192 <= Size(j) <= Size(k) && (j < k ==> Size(j) < Size(k))
    decreases k - j
  {
    SizeFromFirst(j);
    if j < k {
      SizesGrow(j, k - 1);
      SizeFromFirst(k - 1);
    }
  }

  lemma SizesTo5()
    ensures Size(5) == 62_208
  {
    hide Size;
    FirstSize();
    NextSize(0);
    assert Size(1) == 12_288;
    NextSize(1);
    assert Size(2) == 18_432;
    NextSize(2);
    assert Size(3) == 27_648;
    NextSize(3);
    assert Size(4) == 41_472;
    NextSize(4);
    assert Size(5) == 62_208;
  }

  lemma SizesTo10()
    ensures Size(10) == 472_392
  {
    hide Size;
    SizesTo5();
    NextSize(5);
    assert Size(6) == 93_312;
    NextSize(6);
    assert Size(7) == 139_968;
    NextSize(7);
    assert Size(8) == 209_952;
    NextSize(8);
    assert Size(9) == 314_928;
    NextSize(9);
    assert Size(10) == 472_392;
  }

  lemma SizesTo15()
    ensures Size(15) == 3_587_226
  {
    hide Size;
    SizesTo10();
    NextSize(10);
    assert Size(11) == 708_588;
    NextSize(11);
    assert Size(12) == 1_062_882;
    NextSize(12);
    assert Size(13) == 1_594_323;
    NextSize(13);
    assert Size(14) == 2_391_484;
    NextSize(14);
    assert Size(15) == 3_587_226;
  }

  lemma SizesTo20()
    ensures Size(20) == 27_240_495
  {
    hide Size;
    SizesTo15();
    NextSize(15);
    assert Size(16) == 5_380_839;
    NextSize(16);
    assert Size(17) == 8_071_258;
    NextSize(17);
    assert Size(18) == 12_106_887;
    NextSize(18);
    assert Size(19) == 18_160_330;
    NextSize(19);
    assert Size(20) == 27_240_495;
  }

  lemma SizesTo25()
    ensures Size(25) == 206_857_504
  {
    hide Size;
    SizesTo20();
    NextSize(20);
    assert Size(21) == 40_860_742;
    NextSize(21);
    assert Size(22) == 61_291_113;
    NextSize(22);
    assert Size(23) == 91_936_669;
    NextSize(23);
    assert Size(24) == 137_905_003;
    NextSize(24);
    assert Size(25) == 206_857_504;
  }

  lemma SizesTo30()
    ensures Size(29) == 1_047_216_114 && Size(30) == 1_570_824_171
  {
    hide Size;
    SizesTo25();
    NextSize(25);
    assert Size(26) == 310_286_256;
    NextSize(26);
    assert Size(27) == 465_429_384;
    NextSize(27);
    assert Size(28) == 698_144_076;
    NextSize(28);
    assert Size(29) == 1_047_216_114;
    NextSize(29);
    assert Size(30) == 1_570_824_171;
  }

  // The size before the last one still grows, and the last one does not.
  lemma LastSize()
    ensures Size(30) == LAST_SIZE && Size(29) * 3 < WORD && LAST_SIZE * 3 % WORD / 2 < LAST_SIZE
  {
    hide Size;
    SizesTo30();
  }

  lemma FirstSize()
    ensures Size(0) == 8192
  {}

  lemma GrownSizeIs(k: nat)
    requires k <= 30
    ensures 8192 <= Size(k) <= LAST_SIZE
    ensures k < 30 ==> Size(k) * 3 % WORD / 2 == Size(k + 1) > Size(k) + Size(k) / 3
    ensures k == 30 ==> Size(k) == LAST_SIZE
  {
    hide Size;
    LastSize();
    SizesGrow(k, 30);
    SizesGrow(0, k);
    if k < 30 {
      SizesGrow(k, 29);
      NextSize(k);
      assert Size(k) * 3 < WORD;
    }
  }

  lemma NextSize(k: nat)
    ensures Size(k + 1) == Size(k) * 3 / 2
  {}

  // What the buffer can be: one of the sizes, below the limit, or just enough for the limit.
  ghost predicate Roomy(size: nat, maxSize: nat) {
    || (exists k: nat :: k <= 30 && size == Size(k) && (maxSize > 0 ==> size < maxSize))
    || (0 < maxSize <= LAST_SIZE && size == maxSize + MAX_OP_SIZE + 1)
  }

  // No limit, or one that the buffer does not reach before its size wraps.
  predicate IsLarge(maxSize: nat) {
    maxSize == 0 || maxSize > LAST_SIZE
  }

  datatype Growth = Fits | OverLimit | Overflow

  lemma RoomySize(size: nat, maxSize: nat)
    requires Roomy(size, maxSize)
    ensures 36 <= size && (maxSize > 0 ==> size <= maxSize + MAX_OP_SIZE + 1)
    ensures IsLarge(maxSize) ==> size <= LAST_SIZE
    ensures maxSize > 0 ==> size < maxSize || size == maxSize + MAX_OP_SIZE + 1
  {
    if k: nat :| k <= 30 && size == Size(k) && (maxSize > 0 ==> size < maxSize) {
      GrownSizeIs(k);
    }
  }

  // The buffer is nearly full, and the limit is not passed: it grows, or the size wraps.
  lemma GrownSizeFits(size: nat, bufpos: nat, maxSize: nat)
    requires Roomy(size, maxSize) && size - MAX_OP_SIZE <= bufpos <= size && (maxSize > 0 ==> bufpos <= maxSize)
    ensures GrownSize(size, maxSize) >= size ==>
      Roomy(GrownSize(size, maxSize), maxSize) && bufpos + MAX_OP_SIZE < GrownSize(size, maxSize)
    ensures GrownSize(size, maxSize) >= size && IsLarge(maxSize) ==> bufpos < TOO_FULL
    ensures GrownSize(size, maxSize) < size ==> IsLarge(maxSize) && bufpos >= TOO_FULL
  {
    hide Size;
    var k: nat :| k <= 30 && size == Size(k) && (maxSize > 0 ==> size < maxSize);
    GrownSizeIs(k);
    LastSize();
    if k < 30 {
      GrownSizeIs(k + 1);
    }
  }

  // Makes the buffer larger when it is nearly full. The size wraps when there is no limit in the
  // way and the last size is full.
  method Grow(buf: array<byte>, bufpos: nat, maxSize: nat) returns (g: Growth, buf': array<byte>)
    requires Roomy(buf.Length, maxSize) && bufpos <= buf.Length
    ensures buf' == buf || fresh(buf')
    ensures Roomy(buf'.Length, maxSize) && bufpos <= buf'.Length && buf'[..bufpos] == buf[..bufpos]
    ensures g.Fits? ==> bufpos + 7 <= buf'.Length
    ensures g.OverLimit? <==> !IsLarge(maxSize) && bufpos > maxSize
    ensures g.Overflow? <==> IsLarge(maxSize) && bufpos >= TOO_FULL
  {
    hide Roomy, GrownSize;
    RoomySize(buf.Length, maxSize);
    g, buf' := Fits, buf;
    if bufpos >= buf.Length - MAX_OP_SIZE {
      var size := GrownSize(buf.Length, maxSize);
      if maxSize > 0 && bufpos > maxSize {
        return OverLimit, buf;
      }
      GrownSizeFits(buf.Length, bufpos, maxSize);
      if size < buf.Length {
        return Overflow, buf;
      }
      buf' := Realloc(buf, size);
      assert buf'[..bufpos] == buf'[..buf.Length][..bufpos] == buf[..][..bufpos];
    }
  }

  // The last insert is closed.
  method Finish(buf: array<byte>, base: bytes, trg: bytes, s: State, maxSize: nat, ghost ops: bytes) returns (r: Result)
    requires s.bufpos <= buf.Length && |base| < WORD && |trg| < WORD
    requires Encoding(buf[..s.bufpos], base, trg, ops, s) && (s.data < |trg| ==> 0 < maxSize < s.bufpos)
    modifies buf
    ensures if 0 < maxSize < s.bufpos then r == TooBig else r.Delta? && |r.out| == s.bufpos
    ensures r.Delta? ==> Apply(base, r.out) == Applied(trg)
    ensures s.bufpos <= Bound(|trg|)
  {
    hide Apply, SizeBytes, Writes, HeaderBytes, Match, Hash;
    ghost var ops' := ops;
    if s.inscnt > 0 {
      ops' := CloseInsert(buf, s.bufpos, base, trg, s.data, s.inscnt, ops);
    }
    if maxSize > 0 && s.bufpos > maxSize {
      return TooBig;
    }
    DeltaIsApplied(base, ops', trg);
    r := Delta(buf[..s.bufpos]);
  }

  // ----- the whole encoder

  // The first buffer, and the state before the loop.
  method Begin(t: Table, u: Table, base: bytes, trg: bytes, maxSize: nat) returns (buf: array<byte>, s: State)
    requires ValidTables(t, u) && |base| <= 0x8000_0000 && 0 < |trg| < WORD
    ensures fresh(buf) && Roomy(buf.Length, maxSize) && s.bufpos + 7 <= buf.Length
    ensures Encoding(buf[..s.bufpos], base, trg, [], s)
    ensures s.bufpos <= 27 && Stands(s, Origin(base, trg))
  {
    assert Size(0) == 8192;
    buf := new byte[if maxSize > 0 && 8192 >= maxSize then maxSize + MAX_OP_SIZE + 1 else 8192];
    var bufpos, data, val := Start(t, u, base, trg, buf);
    assert data < |trg| ==> trg[data - WINDOW..data] == trg[..data];
    s := State(bufpos, data, data, 0, 0, val);
  }

  // One pass and the growth of the buffer after it.
  method PassAndGrow(t: Table, u: Table, index: Index, trg: bytes, buf: array<byte>, s: State, maxSize: nat,
                     ghost p: Place, ghost ops: bytes)
    returns (g: Growth, buf': array<byte>, s': State, ghost ops': bytes)
    requires ValidTables(t, u) && index.InBase() && |index.src| <= 0x8000_0000
    requires s.data < |trg| && s.bufpos + 7 <= buf.Length && Roomy(buf.Length, maxSize)
    requires Encoding(buf[..s.bufpos], index.src, trg, ops, s) && Stands(s, p)
    modifies buf
    ensures buf' == buf || fresh(buf')
    ensures s.data < s'.data && s'.bufpos <= buf'.Length && Roomy(buf'.Length, maxSize)
    ensures Encoding(buf'[..s'.bufpos], index.src, trg, ops', s')
    ensures p.Goes(trg) && Stands(s', Step(index.View(), trg, p))
    ensures g.Fits? ==> s'.bufpos + 7 <= buf'.Length
    ensures g.OverLimit? <==> !IsLarge(maxSize) && s'.bufpos > maxSize
    ensures g.Overflow? <==> IsLarge(maxSize) && s'.bufpos >= TOO_FULL
  {
    hide Encoding, Roomy, Step, Stands;
    s', ops' := Pass(t, u, index, trg, buf, s, p, ops);
    g, buf' := Grow(buf, s'.bufpos, maxSize);
  }

  lemma EncodingEnds(written: bytes, base: bytes, trg: bytes, ops: bytes, s: State)
    requires Encoding(written, base, trg, ops, s)
    ensures s.data <= |trg|
    ensures s.bufpos >= TOO_FULL ==> |trg| >= 981_765_080
  {}

  // The position from which nothing more is written: behind the limit, or where the size wraps.
  function TooFar(maxSize: nat): nat {
    if IsLarge(maxSize) then TOO_FULL else maxSize + 1
  }

  // One pass that does not come too far changes nothing about what is to come.
  lemma PeakStep(ix: Blocks, trg: bytes, p: Place, far: nat)
    requires p.Goes(trg)
    ensures var p' := Step(ix, trg, p);
      && End(ix, trg, p) == End(ix, trg, p')
      && (p'.Pos() >= far ==> Peak(ix, trg, p) >= far)
      && (p'.Pos() < far ==> (Peak(ix, trg, p) >= far <==> Peak(ix, trg, p') >= far))
  {}

  lemma PeakEnds(ix: Blocks, trg: bytes, p: Place)
    requires p.data >= |trg|
    ensures Peak(ix, trg, p) == End(ix, trg, p) == p.Pos()
  {}

  // git_delta_create_from_index. maxSize is zero when there is no limit.
  method CreateFromIndex(t: Table, u: Table, index: Index, trg: bytes, maxSize: nat) returns (r: Result)
    requires ValidTables(t, u) && index.InBase() && |index.src| <= 0x8000_0000 && |trg| < WORD
    ensures r.Nothing? <==> trg == []
    ensures r.Delta? ==> Apply(index.src, r.out) == Applied(trg)
    ensures r.Delta? ==> |r.out| == End(index.View(), trg, Origin(index.src, trg)) <= Bound(|trg|)
    ensures r.TooBig? <==>
      trg != [] && !IsLarge(maxSize) && Peak(index.View(), trg, Origin(index.src, trg)) > maxSize
    ensures r.Wrapped? <==>
      trg != [] && IsLarge(maxSize) && Peak(index.View(), trg, Origin(index.src, trg)) >= TOO_FULL
    ensures r.Wrapped? ==> |trg| >= 981_765_080
  {
    hide Encoding, Roomy, ValidTables, Step, Peak, End, Stands, Index.View;
    if trg == [] {
      return Nothing;
    }
    ghost var p := Origin(index.src, trg);
    ghost var ix, far := index.View(), TooFar(maxSize);
    var buf, s := Begin(t, u, index.src, trg, maxSize);
    ghost var ops: bytes := [];
    while s.data < |trg|
      invariant fresh(buf) && Roomy(buf.Length, maxSize) && s.bufpos + 7 <= buf.Length
      invariant Encoding(buf[..s.bufpos], index.src, trg, ops, s) && Stands(s, p)
      invariant End(ix, trg, p) == End(ix, trg, Origin(index.src, trg))
      invariant Peak(ix, trg, p) >= far <==> Peak(ix, trg, Origin(index.src, trg)) >= far
      invariant IsLarge(maxSize) ==> s.bufpos < TOO_FULL
      decreases |trg| - s.data
    {
      var g;
      g, buf, s, ops := PassAndGrow(t, u, index, trg, buf, s, maxSize, p, ops);
      PeakStep(ix, trg, p, far);
      p := Step(ix, trg, p);
      EncodingEnds(buf[..s.bufpos], index.src, trg, ops, s);
      StandsAt(s, p);
      if g.OverLimit? {
        break;
      }
      if g.Overflow? {
        return Wrapped;
      }
    }
    EncodingEnds(buf[..s.bufpos], index.src, trg, ops, s);
    StandsAt(s, p);
    if s.data == |trg| {
      PeakEnds(ix, trg, p);
    }
    r := Finish(buf, index.src, trg, s, maxSize, ops);
  }

  lemma StandsAt(s: State, p: Place)
    requires Stands(s, p)
    ensures s.bufpos == p.Pos() && s.data == p.data
  {}
}
