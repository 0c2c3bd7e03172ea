// SHA-1 as FIPS 180-4 defines it: sections 4.1.1, 4.2.1, 5.1.1, 5.2.1, 5.3.1 and 6.1.2.

module Sha1Standard {
  import opened Bytes

  type word = bv32

  // ----- functions on words

  function Rotl(n: bv6, x: word): word
    requires n < 32
  {
    (x << n) | (x >> (32 - n))
  }

  function Ch(x: word, y: word, z: word): word {
    (x & y) ^ (!x & z)
  }

  function Parity(x: word, y: word, z: word): word {
    x ^ y ^ z
  }

  function Maj(x: word, y: word, z: word): word {
    (x & y) ^ (x & z) ^ (y & z)
  }

  function F(t: nat, x: word, y: word, z: word): word {
    if t < 20 then Ch(x, y, z) else if 40 <= t < 60 then Maj(x, y, z) else Parity(x, y, z)
  }

  function K(t: nat): word {
    if t < 20 then 0x5a82_7999 else if t < 40 then 0x6ed9_eba1 else if t < 60 then 0x8f1b_bcdc else 0xca62_c1d6
  }

  // The constants of section 4.2.1 are roots: the integer part of 2^30 times the square root of 2, 3, 5 and 10.
  lemma KIsRoot(t: nat)
    requires t < 80
    ensures var k, c := K(t) as int, if t < 20 then 2 else if t < 40 then 3 else if t < 60 then 5 else 10;
      k * k <= c * 0x1000_0000_0000_0000 < (k + 1) * (k + 1)
  {
    KValues();
  }

  lemma KValues()
    ensures (0x5a82_7999 as word) as int == 0x5a82_7999 && (0x6ed9_eba1 as word) as int == 0x6ed9_eba1
    ensures (0x8f1b_bcdc as word) as int == 0x8f1b_bcdc && (0xca62_c1d6 as word) as int == 0xca62_c1d6
  {}

  // ----- padding

  const BLOCK := 64

  function Zeros(n: nat): (z: bytes)
    ensures |z| == n
  {
    seq(n, i => 0)
  }

  // How many zero octets follow the octet 0x80.
  function ZeroCount(n: nat): nat {
    (119 - n % 64) % 64
  }

  // n in eight octets, the highest first.
  function Big(n: nat, octets: nat): (b: bytes)
    ensures |b| == octets
  {
    if octets == 0 then [] else Big(n / 0x100, octets - 1) + [n % 0x100]
  }

  lemma PadFills(n: nat)
    ensures (n + 1 + ZeroCount(n) + 8) % 64 == 0
  {
    var q, r := n / 64, n % 64;
    assert n == 64 * q + r && ZeroCount(n) == if r <= 55 then 55 - r else 119 - r;
    assert n + 1 + ZeroCount(n) + 8 == 64 * (if r <= 55 then q + 1 else q + 2);
  }

  function Pad(m: bytes): (p: bytes)
    ensures |p| % 64 == 0
  {
    PadFills(|m|);
    m + [0x80] + Zeros(ZeroCount(|m|)) + Big(8 * |m|, 8)
  }

  // The number of zero octets is the smallest that fills the last block.
  lemma PadIsSmallest(n: nat, k: nat)
    ensures (n + 1 + k + 8) % 64 == 0 ==> ZeroCount(n) <= k
    ensures (n + 1 + ZeroCount(n) + 8) % 64 == 0
  {
    PadFills(n);
    var q, r := n / 64, n % 64;
    assert n == 64 * q + r && ZeroCount(n) == if r <= 55 then 55 - r else 119 - r;
    if (n + 1 + k + 8) % 64 == 0 {
      var p := (n + 1 + k + 8) / 64;
      assert 64 * (p - q) == r + 9 + k;
    }
  }

  // The eight octets are the length of the message in bits.
  function FromBig(b: bytes): nat {
    if b == [] then 0 else FromBig(b[..|b| - 1]) * 0x100 + b[|b| - 1]
  }

  function Pow256(k: nat): nat {
    if k == 0 then 1 else 0x100 * Pow256(k - 1)
  }

  lemma {:induction false} BigIsValue(n: nat, octets: nat)
    requires n < Pow256(octets)
    ensures FromBig(Big(n, octets)) == n
  {
    if octets > 0 {
      BigIsValue(n / 0x100, octets - 1);
      var b := Big(n, octets);
      assert b[..|b| - 1] == Big(n / 0x100, octets - 1);
    }
  }

  // ----- the hash computation

  function Octet(b: byte): word {
    b as bv8 as bv32
  }

  // Four octets as a word, the highest first.
  function Word(a: byte, b: byte, c: byte, d: byte): word {
    ((Octet(a) * 0x100 + Octet(b)) * 0x100 + Octet(c)) * 0x100 + Octet(d)
  }

  // The first n words of the message schedule.
  function Schedule(block: bytes, n: nat): (w: seq<word>)
    requires |block| == BLOCK && n <= 80
    ensures |w| == n
  {
    if n == 0 then []
    else
      var w, t := Schedule(block, n - 1), n - 1;
      if t < 16 then w + [Word(block[4 * t], block[4 * t + 1], block[4 * t + 2], block[4 * t + 3])]
      else w + [Rotl(1, w[t - 3] ^ w[t - 8] ^ w[t - 14] ^ w[t - 16])]
  }

  datatype Hash = Hash(a: word, b: word, c: word, d: word, e: word)

  const H0 := Hash(0x6745_2301, 0xefcd_ab89, 0x98ba_dcfe, 0x1032_5476, 0xc3d2_e1f0)

  function Temp(a: word, f: word, e: word, k: word, w: word): word {
    a + f + e + k + w
  }

  function Round(t: nat, h: Hash, w: word): Hash {
    Hash(Temp(Rotl(5, h.a), F(t, h.b, h.c, h.d), h.e, K(t), w), h.a, Rotl(30, h.b), h.c, h.d)
  }

  // The working variables after the first n rounds.
  function Rounds(h: Hash, w: seq<word>, n: nat): Hash
    requires n <= |w|
  {
    if n == 0 then h else Round(n - 1, Rounds(h, w, n - 1), w[n - 1])
  }

  function Sum(x: Hash, y: Hash): Hash {
    Hash(x.a + y.a, x.b + y.b, x.c + y.c, x.d + y.d, x.e + y.e)
  }

  function Compress(h: Hash, block: bytes): Hash
    requires |block| == BLOCK
  {
    Sum(Rounds(h, Schedule(block, 80), 80), h)
  }

  // The hash value after all blocks of m.
  function HashBlocks(m: bytes): Hash
    requires |m| % 64 == 0
  {
    if m == [] then H0 else Compress(HashBlocks(m[..|m| - 64]), m[|m| - 64..])
  }

  // The hash value of the blocks so far is what the next block starts from, as section 6.1.2 has it.
  lemma BlocksInTurn(m: bytes, block: bytes)
    requires |m| % 64 == 0 && |block| == BLOCK
    ensures |m + block| % 64 == 0 && HashBlocks([]) == H0
    ensures HashBlocks(m + block) == Compress(HashBlocks(m), block)
  {
    hide Compress;
    var whole := m + block;
    assert whole[..|whole| - 64] == m && whole[|whole| - 64..] == block;
  }

  // The octets of a word, the highest first.
  function Octets(x: word): (b: bytes)
    ensures |b| == 4
  {
    [Low(x >> 24), Low(x >> 16), Low(x >> 8), Low(x)]
  }

  function Low(x: word): byte {
    (x & 0xff) as bv8 as byte
  }

  function Digest(h: Hash): (b: bytes)
    ensures |b| == 20
  {
    Octets(h.a) + Octets(h.b) + Octets(h.c) + Octets(h.d) + Octets(h.e)
  }

  function Sha1(m: bytes): bytes {
    Digest(HashBlocks(Pad(m)))
  }

  lemma Narrow(x: word)
    requires x <= 0xff
    ensures (x as bv8) as bv32 == x
  {}

  lemma Eight(b: bv8)
    ensures (b as int) as bv8 == b
  {}

  lemma LowIsOctet(x: word)
    ensures Octet(Low(x)) == x & 0xff
  {
    var y := x & 0xff;
    Narrow(y);
    Eight(y as bv8);
  }

  // A word is what its octets say.
  lemma OctetsAreWord(x: word)
    ensures var b := Octets(x); Word(b[0], b[1], b[2], b[3]) == x
  {
    LowIsOctet(x >> 24);
    LowIsOctet(x >> 16);
    LowIsOctet(x >> 8);
    LowIsOctet(x);
    Horner(x);
  }

  // The octets of a digest are those of its words.
  lemma DigestIsWords(h: Hash)
    ensures var d := Digest(h);
            && |d| == 20
            && Word(d[0], d[1], d[2], d[3]) == h.a
            && Word(d[4], d[5], d[6], d[7]) == h.b
            && Word(d[8], d[9], d[10], d[11]) == h.c
            && Word(d[12], d[13], d[14], d[15]) == h.d
            && Word(d[16], d[17], d[18], d[19]) == h.e
  {
    hide Word, Low;
    OctetsAreWord(h.a);
    OctetsAreWord(h.b);
    OctetsAreWord(h.c);
    OctetsAreWord(h.d);
    OctetsAreWord(h.e);
  }

  // The hash value of section 5.3.1 has the octets 01 23 45 67 to 76 54 32 10 and f0 e1 d2 c3, in each word from the
  // last to the first.
  lemma StartOctets()
    ensures Digest(H0) == [0x67, 0x45, 0x23, 0x01, 0xef, 0xcd, 0xab, 0x89, 0x98, 0xba, 0xdc, 0xfe,
                           0x10, 0x32, 0x54, 0x76, 0xc3, 0xd2, 0xe1, 0xf0]
  {}

  lemma Horner(x: word)
    ensures ((((x >> 24) & 0xff) * 0x100 + ((x >> 16) & 0xff)) * 0x100 + ((x >> 8) & 0xff)) * 0x100 + (x & 0xff) == x
  {}
}
