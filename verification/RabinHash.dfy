// The hash of delta.c: polynomials over GF(2), modulo the polynomial 0xab59b4d1 of degree 31.

module RabinHash {
  import opened Bytes
  import opened RollingHash

  const T_ONE: bv32 := 0xab59b4d1
  const U_ONE: bv32 := 0x7eb5200d

  // Multiplication by x modulo the polynomial.
  function Twice(v: bv32): bv32 {
    if v & 0x4000_0000 == 0 then v << 1 else (v << 1) ^ 0xab59b4d1
  }

  function Xor(v: bv32, w: bv32): bv32 {
    v ^ w
  }

  const GF2 := Polynomials(Xor, 0, Twice)

  // ----- polynomials over GF(2) obey the laws

  lemma XorIs(v: bv32, w: bv32)
    ensures Xor(v, w) == v ^ w
  {}

  lemma XorTwice(p: bv32, q: bv32, r: bv32)
    ensures Xor(Xor(p, q), r) == (p ^ q) ^ r
  {
    hide Xor;
    XorIs(p, q);
    XorIs(p ^ q, r);
  }

  lemma SwapBits(p: bv32, q: bv32, r: bv32)
    ensures (p ^ q) ^ r == (p ^ r) ^ q
  {}

  lemma SwapLaw(p: bv32, q: bv32, r: bv32)
    ensures Xor(Xor(p, q), r) == Xor(Xor(p, r), q)
  {
    hide Xor;
    XorTwice(p, q, r);
    XorTwice(p, r, q);
    SwapBits(p, q, r);
  }

  lemma CancelBits(p: bv32, q: bv32)
    ensures (p ^ q) ^ q == p
  {}

  lemma NothingAdded(p: bv32)
    ensures Xor(0, p) == p
  {}

  lemma CancelLaw(p: bv32, q: bv32)
    ensures Xor(Xor(p, q), q) == p && Xor(0, p) == p
  {
    hide Xor;
    XorTwice(p, q, q);
    CancelBits(p, q);
    NothingAdded(p);
  }

  lemma ShiftOfSum(v: bv32, w: bv32)
    ensures (v ^ w) << 1 == (v << 1) ^ (w << 1)
  {}

  // The top bit of a sum is set when it is in just one of the parts.
  lemma TopBitOfSum(v: bv32, w: bv32)
    ensures (v ^ w) & 0x4000_0000 == 0 <==> (v & 0x4000_0000 == 0 <==> w & 0x4000_0000 == 0)
  {}

  lemma TermOfSum(a: bv32, b: bv32, c: bv32)
    ensures (a ^ c) ^ b == (a ^ b) ^ c && a ^ (b ^ c) == (a ^ b) ^ c && (a ^ c) ^ (b ^ c) == a ^ b
  {}

  lemma TwiceSum(v: bv32, w: bv32)
    ensures Twice(v ^ w) == Twice(v) ^ Twice(w)
  {
    ShiftOfSum(v, w);
    TopBitOfSum(v, w);
    TermOfSum(v << 1, w << 1, 0xab59b4d1);
  }

  lemma TwiceXor(v: bv32, w: bv32)
    ensures Twice(Xor(v, w)) == Xor(Twice(v), Twice(w))
  {
    hide Twice, Xor;
    XorIs(v, w);
    XorIs(Twice(v), Twice(w));
    TwiceSum(v, w);
  }

  lemma GF2Laws()
    ensures GF2.Laws()
  {
    forall p, q, r ensures GF2.SwapAt(p, q, r) { SwapLaw(p, q, r); }
    forall p, q ensures GF2.CancelAt(p, q) { CancelLaw(p, q); }
    forall p, q ensures GF2.LinearAt(p, q) { TwiceXor(p, q); }
  }

  // ----- the hash step of the source is one step of the fold

  function Bits(b: byte): bv32 {
    b as bv8 as bv32
  }

  function Top(v: bv32): byte
    requires v < 0x8000_0000
  {
    (v >> 23) as bv8 as int
  }

  lemma ByteOfBits(x: bv8)
    ensures (x as int) as bv8 == x
  {}

  lemma NextBits(x: bv8)
    ensures x as int < 255 ==> (x + 1) as int == x as int + 1
  {}

  lemma {:induction false} BitsExist(b: byte) returns (x: bv8)
    ensures x as int == b
  {
    if b == 0 {
      x := 0;
    } else {
      var y := BitsExist(b - 1);
      NextBits(y);
      x := y + 1;
    }
  }

  lemma ByteIsKept(b: byte)
    ensures (b as bv8) as int == b
  {
    var x := BitsExist(b);
    ByteOfBits(x);
  }

  lemma HalfOfBits(x: bv8)
    ensures (x as int) / 2 == (x >> 1) as int
  {}

  lemma LastOfBits(x: bv8)
    ensures (x as int) % 2 == (x & 1) as int
  {}

  lemma SplitLast(x: bv8)
    ensures x == ((x >> 1) << 1) ^ (x & 1) && x >> 1 < 0x80 && x & 1 < 2
  {}

  lemma HalfByte(b: byte)
    ensures b as bv8 == (((b / 2) as bv8) << 1) ^ ((b % 2) as bv8)
    ensures ((b / 2) as bv8) < 0x80 && ((b % 2) as bv8) < 2
  {
    var x := b as bv8;
    ByteIsKept(b);
    HalfOfBits(x);
    LastOfBits(x);
    ByteOfBits(x >> 1);
    ByteOfBits(x & 1);
    SplitLast(x);
  }

  // Doubling the polynomial of a half byte, at bit 0 and at bit 23, without and with a last bit.
  lemma DoubleBits(h: bv8)
    requires h < 0x80
    ensures (h << 1) as bv32 == Twice(h as bv32) && ((h << 1) as bv32) << 23 == Twice((h as bv32) << 23)
  {}

  lemma LastBits(h: bv8)
    requires h < 0x80
    ensures ((h << 1) ^ 1) as bv32 == ((h << 1) as bv32) ^ 1
    ensures (((h << 1) ^ 1) as bv32) << 23 == (((h << 1) as bv32) << 23) ^ 0x80_0000
  {}

  lemma BitsOfHalf(b: byte, h: bv8)
    requires h == (b / 2) as bv8
    ensures h < 0x80 && b as bv8 == if b % 2 == 0 then h << 1 else (h << 1) ^ 1
  {
    HalfByte(b);
  }

  lemma BitsStep(b: byte)
    ensures Bits(b) == if b % 2 == 0 then Twice(Bits(b / 2)) else Xor(Twice(Bits(b / 2)), 1)
    ensures Bits(b) << 23 ==
            if b % 2 == 0 then Twice(Bits(b / 2) << 23) else Xor(Twice(Bits(b / 2) << 23), 0x80_0000)
  {
    hide Twice, Xor;
    var h := (b / 2) as bv8;
    BitsOfHalf(b, h);
    DoubleBits(h);
    if b % 2 != 0 {
      LastBits(h);
      XorIs(Twice(h as bv32), 1);
      XorIs(Twice((h as bv32) << 23), 0x80_0000);
    }
  }

  lemma {:induction false} BitsAreScale(b: byte)
    ensures Bits(b) == GF2.Scale(b, 1)
  {
    hide Twice, Xor, Bits;
    NoBits();
    GF2.ScaleStep(b, 1);
    if b > 0 {
      BitsStep(b);
      BitsAreScale(b / 2);
    }
  }

  lemma {:induction false} TopBitsAreScale(b: byte)
    ensures Bits(b) << 23 == GF2.Scale(b, 0x80_0000)
  {
    hide Twice, Xor, Bits;
    NoBits();
    GF2.ScaleStep(b, 0x80_0000);
    if b > 0 {
      BitsStep(b);
      TopBitsAreScale(b / 2);
    }
  }

  lemma NoBits()
    ensures Bits(0) == 0 && Bits(0) << 23 == 0
  {}

  // x^31 is the polynomial without its leading term.
  lemma LeadingTerm()
    ensures GF2.Times(0x80_0000, 8) == 0x2b59b4d1
  {
    var v1 := Twice(0x80_0000);
    var v2 := Twice(v1);
    var v3 := Twice(v2);
    var v4 := Twice(v3);
    var v5 := Twice(v4);
    var v6 := Twice(v5);
    var v7 := Twice(v6);
    assert GF2.Times(0x80_0000, 1) == v1;
    assert GF2.Times(0x80_0000, 2) == v2;
    assert GF2.Times(0x80_0000, 3) == v3;
    assert GF2.Times(0x80_0000, 4) == v4;
    assert GF2.Times(0x80_0000, 5) == v5;
    assert GF2.Times(0x80_0000, 6) == v6;
    assert GF2.Times(0x80_0000, 7) == v7;
  }

  lemma {:induction false} LostBit(n: byte)
    ensures GF2.Scale(n, 0x8000_0000) == if n % 2 == 0 then 0 else 0x8000_0000
  {
    if n > 0 {
      LostBit(n / 2);
      assert Twice(0) == 0 && Twice(0x8000_0000) == 0;
    }
  }

  lemma TwiceSmall(v: bv32, one: bv32)
    requires v < 0x8000_0000 && one < 0x8000_0000
    ensures Twice(v) < 0x8000_0000 && Twice(v) ^ one < 0x8000_0000
  {}

  lemma {:induction false} ScaleSmall(n: nat, one: bv32)
    requires one < 0x8000_0000
    ensures GF2.Scale(n, one) < 0x8000_0000
  {
    if n > 0 {
      ScaleSmall(n / 2, one);
      TwiceSmall(GF2.Scale(n / 2, one), one);
    }
  }

  lemma TwiceLow(v: bv32)
    requires v < 0x4000_0000
    ensures Twice(v) == v << 1
  {}

  lemma TimesLow(v0: bv32, v8: bv32)
    requires v0 < 0x80_0000 && v8 == v0 << 8
    ensures GF2.Times(v0, 8) == v8
  {
    var v1 := v0 << 1; TwiceLow(v0);
    var v2 := v1 << 1; TwiceLow(v1);
    var v3 := v2 << 1; TwiceLow(v2);
    var v4 := v3 << 1; TwiceLow(v3);
    var v5 := v4 << 1; TwiceLow(v4);
    var v6 := v5 << 1; TwiceLow(v5);
    var v7 := v6 << 1; TwiceLow(v6);
    var v8' := v7 << 1; TwiceLow(v7);
    GF2.EightTimes(v0, v1, v2, v3, v4, v5, v6, v7, v8');
  }

  lemma TopBits(v: bv32)
    requires v < 0x8000_0000
    ensures ((v >> 23) as bv8) as bv32 == v >> 23
    ensures ((v >> 23) as bv8) & 1 == 0 <==> (v >> 23) & 1 == 0
  {}

  lemma LowestBit(x: bv8)
    ensures x & 1 == 0 <==> (x & 1) as int == 0
  {}

  lemma TopOf(v: bv32)
    requires v < 0x8000_0000
    ensures Bits(Top(v)) == v >> 23
    ensures Top(v) % 2 == 0 <==> (v >> 23) & 1 == 0
  {
    TopBits(v);
    ByteOfBits((v >> 23) as bv8);
    LastOfBits((v >> 23) as bv8);
    LowestBit((v >> 23) as bv8);
  }

  // What the bits that leave at the top contribute, as a remainder.
  function Carry(v: bv32): bv32
    requires v < 0x8000_0000
  {
    GF2.Scale(Top(v), 0x2b59b4d1)
  }

  lemma TimesTop(v: bv32, top: bv32)
    requires v < 0x8000_0000 && top == (v >> 23) << 23
    ensures GF2.Times(top, 8) == Carry(v)
  {
    hide Xor, Twice, Bits, Top;
    TopOf(v);
    TopBitsAreScale(Top(v));
    LeadingTerm();
    GF2Laws();
    GF2.TimesScale(Top(v), 0x80_0000, 8);
  }

  // The bit at the top that a shift by a byte loses from the upper part.
  function Lost(v: bv32): bv32 {
    if (v >> 23) & 1 == 0 then 0 else 0x8000_0000
  }

  lemma PartBits(v: bv32)
    ensures v == ((v >> 23) << 23) ^ (v & 0x7f_ffff)
  {}

  lemma PartsAreSum(v: bv32)
    ensures v == Xor((v >> 23) << 23, v & 0x7f_ffff)
  {
    hide Xor;
    PartBits(v);
    XorIs((v >> 23) << 23, v & 0x7f_ffff);
  }

  lemma LiftedBits(v: bv32)
    ensures v << 8 == ((v & 0x7f_ffff) << 8) ^ (if (v >> 23) & 1 == 0 then 0 else 0x8000_0000)
  {}

  lemma LiftedIsSum(v: bv32)
    ensures v << 8 == Xor((v & 0x7f_ffff) << 8, Lost(v))
  {
    hide Xor;
    LiftedBits(v);
    XorIs((v & 0x7f_ffff) << 8, Lost(v));
  }

  lemma LowIsSmall(v: bv32)
    ensures v & 0x7f_ffff < 0x80_0000 && (v & 0x7f_ffff) << 8 < 0x8000_0000
  {}

  lemma BitsAreSmall(b: byte)
    ensures Bits(b) < 0x100
  {}

  // v is the sum of top and low; a shift by a byte lifts low and loses all of top but one bit.
  lemma Parts(v: bv32) returns (top: bv32, low: bv32, lifted: bv32)
    requires v < 0x8000_0000
    ensures v == GF2.add(top, low) && v << 8 == GF2.add(lifted, Lost(v))
    ensures GF2.Times(top, 8) == Carry(v) && GF2.Times(low, 8) == lifted && lifted < 0x8000_0000
  {
    hide Xor, Twice, Carry, Lost;
    top, low := (v >> 23) << 23, v & 0x7f_ffff;
    lifted := low << 8;
    PartsAreSum(v);
    LiftedIsSum(v);
    LowIsSmall(v);
    TimesLow(low, lifted);
    TimesTop(v, top);
  }

  lemma EntryIsSum(v: bv32, t: bv32)
    requires v < 0x8000_0000 && t == GF2.Scale(Top(v), T_ONE)
    ensures t == GF2.add(Carry(v), Lost(v))
  {
    TopOf(v);
    GF2Laws();
    var one := Xor(0x2b59b4d1, 0x8000_0000);
    GF2.ScaleAdd(Top(v), 0x2b59b4d1, 0x8000_0000);
    LostBit(Top(v));
  }

  lemma OrBits(v: bv32, b: bv32)
    ensures b < 0x100 ==> (v << 8) | b == (v << 8) ^ b
  {}

  lemma OrIsSum(v: bv32, b: bv32, t: bv32)
    requires b < 0x100
    ensures ((v << 8) | b) ^ t == Xor(Xor(v << 8, b), t)
  {
    hide Xor;
    OrBits(v, b);
    XorTwice(v << 8, b, t);
  }

  // One step of the hash as the source computes it takes in one byte.
  lemma StepIsTimes(v: bv32, b: byte, t: bv32)
    requires v < 0x8000_0000 && t == GF2.Scale(Top(v), T_ONE)
    ensures ((v << 8) | Bits(b)) ^ t == GF2.add(GF2.Times(v, 8), GF2.Scale(b, 1))
  {
    hide Xor, Twice, Carry, Lost;
    var top, low, lifted := Parts(v);
    BitsAreScale(b);
    BitsAreSmall(b);
    GF2Laws();
    EntryIsSum(v, t);
    GF2.StepLaw(v, Bits(b), top, low, Carry(v), lifted, Lost(v), v << 8, t);
    OrIsSum(v, Bits(b), t);
  }

  lemma TimesSmall(v: bv32, n: nat)
    requires v < 0x8000_0000
    ensures GF2.Times(v, n) < 0x8000_0000
  {
    if n > 0 {
      TimesSmall(v, n - 1);
      TwiceSmall(GF2.Times(v, n - 1), 0);
    }
  }

  lemma XorSmall(v: bv32, w: bv32)
    requires v < 0x8000_0000 && w < 0x8000_0000
    ensures Xor(v, w) < 0x8000_0000
  {}

  // ----- the contribution of the oldest byte in the window

  function Eight(v: bv32): bv32 {
    Twice(Twice(Twice(Twice(Twice(Twice(Twice(Twice(v))))))))
  }

  lemma EightMore(n: nat, v: bv32, w: bv32)
    requires GF2.Times(1, n) == v && Eight(v) == w
    ensures GF2.Times(1, n + 8) == w
  {
    GF2.TimesTimes(1, n, 8);
    GF2.EightTimes(v, Twice(v), Twice(Twice(v)), Twice(Twice(Twice(v))), Twice(Twice(Twice(Twice(v)))),
                   Twice(Twice(Twice(Twice(Twice(v))))), Twice(Twice(Twice(Twice(Twice(Twice(v)))))),
                   Twice(Twice(Twice(Twice(Twice(Twice(Twice(v))))))), w);
  }

  lemma OldestByte()
    ensures GF2.Times(1, 8 * (WINDOW - 1)) == U_ONE
  {
    EightMore(0, 0x1, 0x100);
    EightMore(8, 0x100, 0x10000);
    EightMore(16, 0x10000, 0x1000000);
    EightMore(24, 0x1000000, 0x56b369a2);
    EightMore(32, 0x56b369a2, 0x4f3fc4b7);
    EightMore(40, 0x4f3fc4b7, 0x177eae38);
    EightMore(48, 0x177eae38, 0x13a7c5b5);
    EightMore(56, 0x13a7c5b5, 0x6deb334e);
    EightMore(64, 0x6deb334e, 0xd19fd2c);
    EightMore(72, 0xd19fd2c, 0x5bcd14dc);
    EightMore(80, 0x5bcd14dc, 0x7372826b);
    EightMore(88, 0x7372826b, 0x1cb666be);
    EightMore(96, 0x1cb666be, 0x38476707);
    EightMore(104, 0x38476707, 0xd97dcac);
    EightMore(112, 0xd97dcac, 0x7eb5200d);
  }

  // ----- the hash as the encoder keeps it

  type Table = Sixteen<Sixteen<bv32>>

  // Entry i of t and of u is i times T_ONE and U_ONE.
  ghost predicate ValidTables(t: Table, u: Table) {
    forall i: byte :: Entry(t, i) == GF2.Scale(i, T_ONE) && Entry(u, i) == GF2.Scale(i, U_ONE)
  }

  // The remainder of the bytes of bs, read as one polynomial.
  ghost function Hash(bs: bytes): bv32 {
    GF2.Fold(1, 0, bs)
  }

  // v with the byte b taken in.
  ghost function Push(v: bv32, b: byte): bv32 {
    GF2.add(GF2.Times(v, 8), GF2.Scale(b, 1))
  }

  lemma PushIsSmall(v: bv32, b: byte)
    requires v < 0x8000_0000
    ensures Push(v, b) < 0x8000_0000
  {
    TimesSmall(v, 8);
    ScaleSmall(b, 1);
    XorSmall(GF2.Times(v, 8), GF2.Scale(b, 1));
  }

  lemma HashPush(bs: bytes, b: byte)
    ensures Hash(bs + [b]) == Push(Hash(bs), b)
  {
    assert (bs + [b])[..|bs + [b]| - 1] == bs;
  }

  lemma {:induction false} HashIsSmall(bs: bytes)
    ensures Hash(bs) < 0x8000_0000
  {
    if bs != [] {
      HashIsSmall(bs[..|bs| - 1]);
      HashPush(bs[..|bs| - 1], bs[|bs| - 1]);
      assert bs[..|bs| - 1] + [bs[|bs| - 1]] == bs;
      PushIsSmall(Hash(bs[..|bs| - 1]), bs[|bs| - 1]);
    }
  }

  // Cancelling the contribution of the oldest byte forgets it.
  lemma DropOldest(window: bytes)
    requires |window| == WINDOW
    ensures GF2.add(Hash(window), GF2.Scale(window[0], U_ONE)) == Hash(window[1..])
  {
    GF2Laws();
    OldestByte();
    GF2.FoldDrop(1, window);
  }

  // val = ((val << 8) | b) ^ T[val >> RABIN_SHIFT]
  method TakeIn(t: Table, u: Table, v: bv32, b: byte) returns (r: bv32)
    requires ValidTables(t, u) && v < 0x8000_0000
    ensures r == Push(v, b) && r < 0x8000_0000
  {
    var entry := Entry(t, Top(v));
    r := ((v << 8) | Bits(b)) ^ entry;
    StepIsTimes(v, b, entry);
    PushIsSmall(v, b);
  }

  // val ^= U[oldest], then take in the next byte: the hash of the window moved by one.
  method Roll(t: Table, u: Table, v: bv32, oldest: byte, next: byte, ghost window: bytes) returns (r: bv32)
    requires ValidTables(t, u) && |window| == WINDOW
    requires v == Hash(window) && oldest == window[0]
    ensures r == Hash(window[1..] + [next]) && r < 0x8000_0000
  {
    var entry := Entry(u, oldest);
    var dropped := v ^ entry;
    DropOldest(window);
    HashIsSmall(window[1..]);
    assert dropped == Xor(v, entry);
    r := TakeIn(t, u, dropped, next);
    HashPush(window[1..], next);
  }
}
