// The streaming SHA-1 of sha1.c.

module Sha1Stream {
  import opened Bytes
  import opened Sha1Standard

  // ----- the forms of the standard's functions that the program uses

  function CodeCh(b: word, c: word, d: word): word {
    (b & c) | (!b & d)
  }

  function CodeMaj(b: word, c: word, d: word): word {
    (b & c) | (b & d) | (c & d)
  }

  lemma OrIsXor(b: word, c: word, d: word)
    ensures (b & c) | (!b & d) == (b & c) ^ (!b & d)
    ensures (b & c) | (b & d) | (c & d) == (b & c) ^ (b & d) ^ (c & d)
  {}

  // The standard's functions have an exclusive or where the program has an or.
  lemma CodeIsStandard(b: word, c: word, d: word)
    ensures CodeCh(b, c, d) == Ch(b, c, d) && CodeMaj(b, c, d) == Maj(b, c, d)
  {
    OrIsXor(b, c, d);
  }

  lemma AddOrder(a: word, f: word, e: word, w: word, k: word)
    ensures a + f + e + w + k == a + f + e + k + w
  {}

  function CodeTemp(a: word, f: word, e: word, w: word, k: word): word {
    (a + f + e + w + k) & 0xffff_ffff
  }

  lemma CodeTempIsTemp(a: word, f: word, e: word, w: word, k: word)
    ensures CodeTemp(a, f, e, w, k) == Temp(a, f, e, k, w)
  {
    AddOrder(a, f, e, w, k);
    MaskIsNothing(a + f + e + w + k);
  }

  lemma Join(a: word, b: word, c: word, d: word)
    requires a <= 0xff && b <= 0xff && c <= 0xff && d <= 0xff
    ensures (((a << 24) | (b << 16)) | (c << 8)) | d == ((a * 0x100 + b) * 0x100 + c) * 0x100 + d
  {}

  lemma OctetIsSmall(b: byte)
    ensures Octet(b) <= 0xff
  {}

  // The nng_sha1_circular_shift macro.
  function CircularShift(n: bv6, x: word): word
    requires n < 32
  {
    ((x << n) & 0xffff_ffff) | (x >> (32 - n))
  }

  lemma ShiftIsRotl(n: bv6, x: word)
    requires n < 32
    ensures CircularShift(n, x) == Rotl(n, x)
  {}

  lemma MaskIsNothing(x: word)
    ensures x & 0xffff_ffff == x
  {}

  // ----- one block

  // The word that starts at octet i of the block.
  method LoadWord(blk: array<byte>, i: nat) returns (w: word)
    requires i + 4 <= blk.Length
    ensures w == Word(blk[i], blk[i + 1], blk[i + 2], blk[i + 3])
  {
    hide Octet;
    OctetIsSmall(blk[i]);
    OctetIsSmall(blk[i + 1]);
    OctetIsSmall(blk[i + 2]);
    OctetIsSmall(blk[i + 3]);
    var a, b, c, d := Octet(blk[i]), Octet(blk[i + 1]), Octet(blk[i + 2]), Octet(blk[i + 3]);
    w := a << 24;
    w := w | (b << 16);
    w := w | (c << 8);
    w := w | d;
    Join(a, b, c, d);
  }

  lemma FirstWords(block: bytes, t: nat)
    requires |block| == BLOCK && t < 16
    ensures Schedule(block, t + 1)
         == Schedule(block, t) + [Word(block[4 * t], block[4 * t + 1], block[4 * t + 2], block[4 * t + 3])]
  {
    hide Word;
  }

  lemma LaterWords(block: bytes, t: nat, w: seq<word>, x: word)
    requires |block| == BLOCK && 16 <= t < 80 && w == Schedule(block, t)
    requires x == w[t - 3] ^ w[t - 8] ^ w[t - 14] ^ w[t - 16]
    ensures Schedule(block, t + 1) == w + [Rotl(1, x)]
  {
    hide Word, Rotl;
  }

  // The two loops that fill W.
  method FillSchedule(blk: array<byte>) returns (w: array<word>)
    requires blk.Length == BLOCK
    ensures fresh(w) && w[..] == Schedule(blk[..], 80)
  {
    hide Word, Rotl, CircularShift, Schedule;
    ghost var block := blk[..];
    w := new word[80];
    NoWords(block);
    for t := 0 to 16
      invariant w[..t] == Schedule(block, t)
    {
      FirstWords(block, t);
      w[t] := LoadWord(blk, 4 * t);
      assert w[..t + 1] == w[..t] + [w[t]];
    }
    for t := 16 to 80
      invariant w[..t] == Schedule(block, t)
    {
      ghost var before := w[..t];
      var x := w[t - 3] ^ w[t - 8] ^ w[t - 14] ^ w[t - 16];
      LaterWords(block, t, before, x);
      ShiftIsRotl(1, x);
      w[t] := CircularShift(1, x);
      assert w[..t + 1] == before + [w[t]];
    }
    assert w[..80] == w[..];
  }

  lemma NoWords(block: bytes)
    requires |block| == BLOCK
    ensures Schedule(block, 0) == []
  {}

  // ----- the rounds

  // The body of the four loops, with f the value of the round's function.
  method OneRound(x: Hash, f: word, wt: word, k: word, ghost h: Hash, ghost w: seq<word>, ghost t: nat)
    returns (y: Hash)
    requires t < |w| && x == Rounds(h, w, t) && f == F(t, x.b, x.c, x.d) && wt == w[t] && k == K(t)
    ensures y == Rounds(h, w, t + 1)
  {
    hide Rotl, F, K, CircularShift, CodeTemp, Temp;
    ShiftIsRotl(5, x.a);
    ShiftIsRotl(30, x.b);
    var a := CircularShift(5, x.a);
    CodeTempIsTemp(a, f, x.e, wt, k);
    var temp := CodeTemp(a, f, x.e, wt, k);
    y := Hash(temp, x.a, CircularShift(30, x.b), x.c, x.d);
  }

  // The four loops.
  method AllRounds(h: Hash, w: array<word>) returns (x: Hash)
    requires w.Length == 80
    ensures x == Rounds(h, w[..], 80)
  {
    hide Rotl, Rounds, CodeCh, CodeMaj, Ch, Maj, Parity;
    ghost var ws := w[..];
    x := h;
    NoRounds(h, ws);
    for t := 0 to 20
      invariant x == Rounds(h, ws, t)
    {
      CodeIsStandard(x.b, x.c, x.d);
      x := OneRound(x, CodeCh(x.b, x.c, x.d), w[t], 0x5a82_7999, h, ws, t);
    }
    for t := 20 to 40
      invariant x == Rounds(h, ws, t)
    {
      x := OneRound(x, Parity(x.b, x.c, x.d), w[t], 0x6ed9_eba1, h, ws, t);
    }
    for t := 40 to 60
      invariant x == Rounds(h, ws, t)
    {
      CodeIsStandard(x.b, x.c, x.d);
      x := OneRound(x, CodeMaj(x.b, x.c, x.d), w[t], 0x8f1b_bcdc, h, ws, t);
    }
    for t := 60 to 80
      invariant x == Rounds(h, ws, t)
    {
      x := OneRound(x, Parity(x.b, x.c, x.d), w[t], 0xca62_c1d6, h, ws, t);
    }
  }

  lemma NoRounds(h: Hash, w: seq<word>)
    ensures Rounds(h, w, 0) == h
  {}

  // The end of nng_sha1_process, with A to E in x.
  function Added(digest: Hash, x: Hash): Hash {
    Hash((digest.a + x.a) & 0xffff_ffff, (digest.b + x.b) & 0xffff_ffff, (digest.c + x.c) & 0xffff_ffff,
         (digest.d + x.d) & 0xffff_ffff, (digest.e + x.e) & 0xffff_ffff)
  }

  lemma AddBack(x: word, y: word)
    ensures (y + x) & 0xffff_ffff == x + y
  {
    MaskIsNothing(y + x);
  }

  lemma AddedIsSum(digest: Hash, x: Hash)
    ensures Added(digest, x) == Sum(x, digest)
  {
    AddBack(x.a, digest.a);
    AddBack(x.b, digest.b);
    AddBack(x.c, digest.c);
    AddBack(x.d, digest.d);
    AddBack(x.e, digest.e);
  }

  // ----- the context

  lemma NothingHashed()
    ensures HashBlocks([]) == H0 && Bits(0) == 0
  {}

  const TWO64 := 0x1_0000_0000_0000_0000

  // The length in bits, which wraps around.
  function Bits(n: nat): nat {
    8 * n % TWO64
  }

  lemma OneMore(n: nat)
    ensures (Bits(n) + 8) % TWO64 == Bits(n + 1)
  {
    var q, r := 8 * n / TWO64, 8 * n % TWO64;
    assert 8 * n == TWO64 * q + r;
  }

  lemma ZerosAtEnd(n: nat)
    ensures ZeroCount(n) == if n % BLOCK > 55 then 119 - n % BLOCK else 55 - n % BLOCK
  {}

  // The rest of m that is in the block, with one byte more.
  lemma OneMoreByte(m: bytes, idx: nat, b: byte)
    requires idx <= |m| && |m| % BLOCK == idx % BLOCK
    ensures |m + [b]| % BLOCK == (idx + 1) % BLOCK
    ensures (m + [b])[|m| - idx..] == m[|m| - idx..] + [b] && (m + [b])[..|m| - idx] == m[..|m| - idx]
  {
    OnePlaceMore(|m|, idx);
    var rest := |m| - idx;
    assert (m + [b])[..rest] == m[..rest];
  }

  lemma OnePlaceMore(n: nat, idx: nat)
    requires idx <= n && n % BLOCK == idx % BLOCK
    ensures (n + 1) % BLOCK == (idx + 1) % BLOCK
  {
    var q := (n - idx) / BLOCK;
    assert n == idx + BLOCK * q;
  }

  class Context {
    var digest: Hash
    var len: nat         // in bits, a uint64_t
    var blk: array<byte>
    var idx: nat
    ghost var message: bytes  // what has been hashed so far

    ghost predicate Valid()
      reads this, blk
    {
      Holds(message) && idx < BLOCK && len == Bits(|message|)
    }

    // The whole blocks of m have been processed, and the rest of m is in the block.
    ghost predicate Holds(m: bytes)
      reads `digest, `idx, `blk, blk
    {
      && blk.Length == BLOCK && idx <= BLOCK && |m| % BLOCK == idx % BLOCK && idx <= |m|
      && blk[..idx] == m[|m| - idx..] && digest == HashBlocks(m[..|m| - idx])
    }

    // nng_sha1_init
    constructor ()
      ensures Valid() && fresh(blk) && message == []
    {
      len, idx, message, digest := 0, 0, [], H0;
      blk := new byte[BLOCK];
      new;
      NothingHashed();
      hide HashBlocks, Bits;
      assert blk[..0] == [];
    }

    // nng_sha1_process
    method Process()
      requires blk.Length == BLOCK
      modifies this`digest, this`idx
      ensures digest == Compress(old(digest), blk[..]) && idx == 0
    {
      hide Rounds, Schedule, Sum, Added;
      var w := FillSchedule(blk);
      var x := AllRounds(digest, w);
      AddedIsSum(digest, x);
      digest := Added(digest, x);
      idx := 0;
    }

    // blk[idx++] = b, when m is what the context holds.
    method Put(b: byte, ghost m: bytes)
      requires Holds(m) && idx < BLOCK
      modifies this`idx, blk
      ensures Holds(m + [b]) && idx == old(idx) + 1
    {
      hide HashBlocks;
      OneMoreByte(m, idx, b);
      ghost var was := blk[..idx];
      blk[idx] := b;
      idx := idx + 1;
      assert blk[..idx] == was + [b];
    }

    method ProcessFull(ghost m: bytes)
      requires Holds(m) && idx == BLOCK
      modifies this`digest, this`idx
      ensures Holds(m) && idx == 0 && digest == HashBlocks(m)
    {
      hide Compress, HashBlocks;
      assert blk[..idx] == blk[..];
      LastBlock(m);
      Process();
      assert m[..|m|] == m;
    }

    lemma HoldsIdx(m: bytes)
      requires Holds(m)
      ensures blk.Length == BLOCK && idx <= BLOCK && |m| % BLOCK == idx % BLOCK
    {}

    // One pass of the loop of nng_sha1_update.
    method Take(b: byte)
      requires Valid()
      modifies this, blk
      ensures Valid() && message == old(message) + [b] && blk == old(blk)
    {
      hide Holds, Bits;
      HoldsIdx(message);
      OneMore(|message|);
      Put(b, message);
      HoldsIdx(message + [b]);
      len := (len + 8) % TWO64;
      message := message + [b];
      if idx == 64 {
        ProcessFull(message);
      }
    }

    // nng_sha1_update
    method Update(data: bytes)
      requires Valid()
      modifies this, blk
      ensures Valid() && message == old(message) + data && blk == old(blk)
    {
      hide Valid;
      var i := 0;
      while i < |data|
        invariant 0 <= i <= |data| && Valid() && message == old(message) + data[..i] && blk == old(blk)
      {
        Take(data[i]);
        assert data[..i + 1] == data[..i] + [data[i]];
        i := i + 1;
      }
      assert data[..i] == data;
    }
    // The loops that fill the block up with zeros.
    method PutZeros(end: nat, ghost m: bytes)
      requires Holds(m) && idx <= end <= BLOCK
      modifies this`idx, blk
      ensures Holds(m + Zeros(end - old(idx))) && idx == end
    {
      hide Holds;
      ghost var n := 0;
      assert m + Zeros(0) == m;
      while idx < end
        invariant idx <= end && idx == old(idx) + n && Holds(m + Zeros(n))
        decreases end - idx
      {
        Put(0, m + Zeros(n));
        assert m + Zeros(n) + [0] == m + Zeros(n + 1);
        n := n + 1;
      }
    }
    // The length goes to the last eight octets, the highest first.
    method StoreLength()
      requires blk.Length == BLOCK
      modifies blk
      ensures blk[..] == old(blk[..56]) + Big(len, 8)
    {
      hide Big, OctetOf;
      ghost var front := blk[..56];
      for j := 0 to 8
        invariant blk[..56 + j] == front + Big(len, 8)[..j]
      {
        BigAt(len, 8, j);
        ghost var before := blk[..56 + j];
        blk[56 + j] := OctetOf(len, 7 - j);
        assert blk[..56 + j + 1] == before + [blk[56 + j]];
      }
      assert blk[..64] == blk[..] && Big(len, 8)[..8] == Big(len, 8);
    }

    // The end of nng_sha1_pad.
    method PutLength(ghost m: bytes)
      requires Holds(m) && idx == 56
      modifies this`digest, this`idx, blk
      ensures digest == HashBlocks(m + Big(len, 8))
    {
      hide HashBlocks, Compress, Big;
      ghost var whole := m + Big(len, 8);
      assert whole[|whole| - 64..] == m[|m| - 56..] + Big(len, 8);
      assert whole[..|whole| - 64] == m[..|m| - 56];
      LastBlock(whole);
      StoreLength();
      Process();
    }

    // nng_sha1_pad, up to the length
    method PadBlock() returns (ghost m: bytes)
      requires Valid()
      modifies this`digest, this`idx, blk
      ensures Holds(m) && idx == 56 && m == message + [0x80] + Zeros(ZeroCount(|message|))
    {
      hide Holds, HashBlocks, Zeros, ZeroCount, Bits;
      HoldsIdx(message);
      ZerosAtEnd(|message|);
      ghost var n := idx;
      m := message + [0x80];
      if idx > 55 {
        Put(0x80, message);
        PutZeros(64, m);
        ProcessFull(m + Zeros(63 - n));
        PutZeros(56, m + Zeros(63 - n));
        ZerosBoth(m, 63 - n, 56);
        m := m + Zeros(119 - n);
      } else {
        Put(0x80, message);
        PutZeros(56, m);
        m := m + Zeros(55 - n);
      }
    }

    // nng_sha1_pad
    method Pad()
      requires Valid()
      modifies this`digest, this`idx, blk
      ensures |message| < 0x2000_0000_0000_0000 ==> digest == HashBlocks(Sha1Standard.Pad(message))
    {
      hide Holds, HashBlocks, Zeros, Big;
      ghost var m := PadBlock();
      PutLength(m);
    }

    // nng_sha1_final
    method Final() returns (d: bytes)
      requires Valid()
      modifies this`digest, this`idx, blk
      ensures |message| < 0x2000_0000_0000_0000 ==> d == Sha1(message)
    {
      hide HashBlocks, Octets, Sha1Standard.Pad;
      Pad();
      d := Octets(digest.a) + Octets(digest.b) + Octets(digest.c) + Octets(digest.d) + Octets(digest.e);
    }
  }

  // n >> 8k
  function Shifted(n: nat, k: nat): nat {
    if k == 0 then n else Shifted(n / 0x100, k - 1)
  }

  // (n >> 8k) & 0xff
  function OctetOf(n: nat, k: nat): byte {
    Shifted(n, k) % 0x100
  }

  lemma ZerosBoth(m: bytes, a: nat, b: nat)
    ensures m + Zeros(a) + Zeros(b) == m + Zeros(a + b)
  {
    assert Zeros(a) + Zeros(b) == Zeros(a + b);
  }

  lemma {:induction false} BigAt(n: nat, octets: nat, i: nat)
    requires i < octets
    ensures Big(n, octets)[i] == OctetOf(n, octets - 1 - i)
  {
    if i < octets - 1 {
      BigAt(n / 0x100, octets - 1, i);
    }
  }

  lemma LastBlock(m: bytes)
    requires |m| >= 64 && |m| % 64 == 0
    ensures HashBlocks(m) == Compress(HashBlocks(m[..|m| - 64]), m[|m| - 64..])
  {
    hide Compress;
  }

  // ----- whole messages

  // nng_sha1
  method Once(msg: bytes) returns (d: bytes)
    requires |msg| < 0x2000_0000_0000_0000
    ensures d == Sha1(msg)
  {
    hide Sha1, Context.Valid;
    var ctx := new Context();
    ctx.Update(msg);
    assert [] + msg == msg;
    d := ctx.Final();
  }

  function Joined(parts: seq<bytes>): bytes {
    if parts == [] then [] else parts[0] + Joined(parts[1..])
  }

  // A message that is hashed in parts has the digest of the whole.
  method InParts(parts: seq<bytes>) returns (d: bytes)
    requires |Joined(parts)| < 0x2000_0000_0000_0000
    ensures d == Sha1(Joined(parts))
  {
    hide Sha1, Joined, Context.Valid;
    var ctx := new Context();
    var i := 0;
    NotJoined(parts);
    while i < |parts|
      invariant 0 <= i <= |parts| && ctx.Valid() && fresh(ctx) && fresh(ctx.blk)
      invariant ctx.message + Joined(parts[i..]) == Joined(parts)
    {
      JoinedStep(ctx.message, parts, i);
      ctx.Update(parts[i]);
      i := i + 1;
    }
    AllJoined(ctx.message, parts, i);
    d := ctx.Final();
  }

  lemma NotJoined(parts: seq<bytes>)
    ensures [] + Joined(parts[0..]) == Joined(parts)
  {
    assert parts[0..] == parts && [] + Joined(parts) == Joined(parts);
  }

  lemma JoinedStep(m: bytes, parts: seq<bytes>, i: nat)
    requires i < |parts|
    ensures m + Joined(parts[i..]) == m + parts[i] + Joined(parts[i + 1..])
  {
    assert parts[i..][1..] == parts[i + 1..];
    assert m + (parts[i] + Joined(parts[i + 1..])) == m + parts[i] + Joined(parts[i + 1..]);
  }

  lemma AllJoined(m: bytes, parts: seq<bytes>, i: nat)
    requires i == |parts|
    ensures m + Joined(parts[i..]) == m
  {
    assert m + [] == m;
  }
}
