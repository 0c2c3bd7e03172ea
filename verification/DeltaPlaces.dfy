// What the encoder of delta.c does, as a function of the index and the target: the matches it takes, and
// how much it has written at each place of the target. No size limit comes into it.

module DeltaPlaces {
  import opened Bytes
  import opened DeltaFormat
  import opened RollingHash
  import opened RabinHash
  import opened DeltaIndex

  const GOOD_MATCH := 4096

  function HeaderBytes(base: bytes, trg: bytes): bytes {
    SizeBytes(|base|) + SizeBytes(|trg|)
  }

  // len bytes of the base from off are the bytes of the target from at.
  ghost predicate Match(base: bytes, trg: bytes, off: nat, at: nat, len: nat) {
    off + len <= |base| && at + len <= |trg| && base[off..off + len] == trg[at..at + len]
  }

  lemma MatchMore(base: bytes, trg: bytes, off: nat, at: nat, len: nat)
    requires Match(base, trg, off, at, len) && off + len < |base| && at + len < |trg|
    requires base[off + len] == trg[at + len]
    ensures Match(base, trg, off, at, len + 1)
  {
    assert base[off..off + len + 1] == base[off..off + len] + [base[off + len]];
    assert trg[at..at + len + 1] == trg[at..at + len] + [trg[at + len]];
  }

  lemma MatchBack(base: bytes, trg: bytes, off: nat, at: nat, len: nat)
    requires Match(base, trg, off, at, len) && 0 < off && 0 < at && base[off - 1] == trg[at - 1]
    ensures Match(base, trg, off - 1, at - 1, len + 1)
  {
    assert base[off - 1..off + len] == [base[off - 1]] + base[off..off + len];
    assert trg[at - 1..at + len] == [trg[at - 1]] + trg[at..at + len];
  }

  lemma MatchSplit(base: bytes, trg: bytes, off: nat, at: nat, len: nat, left: nat)
    requires Match(base, trg, off, at, len + left)
    ensures Match(base, trg, off, at, len) && Match(base, trg, off + len, at + len, left)
  {
    assert base[off..off + len] == base[off..off + len + left][..len];
    assert trg[at..at + len] == trg[at..at + len + left][..len];
    assert base[off + len..off + len + left] == base[off..off + len + left][len..];
    assert trg[at + len..at + len + left] == trg[at..at + len + left][len..];
  }

  lemma MatchedByte(base: bytes, trg: bytes, off: nat, at: nat, len: nat, k: nat)
    requires Match(base, trg, off, at, len)
    ensures k < len ==> base[off + k] == trg[at + k]
  {
    assert k < len ==> base[off..off + len][k] == trg[at..at + len][k];
  }

  // ----- how long a match is

  // How many bytes from ref on agree with those from at on.
  function Agree(base: bytes, trg: bytes, ref: nat, at: nat): nat
    decreases |base| - ref
  {
    if ref < |base| && at < |trg| && base[ref] == trg[at] then 1 + Agree(base, trg, ref + 1, at + 1) else 0
  }

  // How many bytes before off agree with those before at, up to limit.
  function Back(base: bytes, trg: bytes, off: nat, at: nat, limit: nat): (n: nat)
    ensures n <= limit && n <= off && n <= at
  {
    if limit > 0 && 0 < off <= |base| && 0 < at <= |trg| && base[off - 1] == trg[at - 1]
    then 1 + Back(base, trg, off - 1, at - 1, limit - 1)
    else 0
  }

  // That many bytes agree, and no more.
  lemma {:induction false} AgreeIsLongest(base: bytes, trg: bytes, ref: nat, at: nat)
    requires ref <= |base| && at <= |trg|
    ensures Match(base, trg, ref, at, Agree(base, trg, ref, at))
    ensures forall n: nat :: Match(base, trg, ref, at, n) ==> n <= Agree(base, trg, ref, at)
    decreases |base| - ref
  {
    if ref < |base| && at < |trg| && base[ref] == trg[at] {
      AgreeIsLongest(base, trg, ref + 1, at + 1);
      MatchBack(base, trg, ref + 1, at + 1, Agree(base, trg, ref + 1, at + 1));
      forall n: nat | Match(base, trg, ref, at, n) ensures n <= Agree(base, trg, ref, at) {
        if n > 0 {
          MatchSplit(base, trg, ref, at, 1, n - 1);
        }
      }
    } else {
      forall n: nat | Match(base, trg, ref, at, n) ensures n == 0 {
        MatchedByte(base, trg, ref, at, n, 0);
      }
    }
  }

  lemma {:induction false} AgreeIs(base: bytes, trg: bytes, ref: nat, at: nat, n: nat)
    requires Match(base, trg, ref, at, n)
    requires ref + n < |base| && at + n < |trg| ==> base[ref + n] != trg[at + n]
    ensures Agree(base, trg, ref, at) == n
  {
    AgreeIsLongest(base, trg, ref, at);
    var m := Agree(base, trg, ref, at);
    if n < m {
      MatchedByte(base, trg, ref, at, m, n);
    }
  }

  lemma {:induction false} BackMatches(base: bytes, trg: bytes, off: nat, at: nat, limit: nat, len: nat)
    requires Match(base, trg, off, at, len)
    ensures var n := Back(base, trg, off, at, limit); Match(base, trg, off - n, at - n, len + n)
    decreases limit
  {
    if limit > 0 && 0 < off <= |base| && 0 < at <= |trg| && base[off - 1] == trg[at - 1] {
      MatchBack(base, trg, off, at, len);
      BackMatches(base, trg, off - 1, at - 1, limit - 1, len + 1);
    }
  }

  // ----- the search

  // The match that the search through a chain ends with, when it starts with one of msize bytes.
  function Best(base: bytes, trg: bytes, chain: seq<IndexEntry>, val: bv32, at: nat, moff: nat, msize: nat)
    : (nat, nat)
    decreases |chain|
  {
    if chain == [] then (moff, msize)
    else if chain[0].val != val then Best(base, trg, chain[1..], val, at, moff, msize)
    else if |base| - chain[0].at <= msize || |trg| - at <= msize then (moff, msize)
    else
      var n := Agree(base, trg, chain[0].at, at);
      if n <= msize then Best(base, trg, chain[1..], val, at, moff, msize)
      else if n >= GOOD_MATCH then (chain[0].at, n)
      else Best(base, trg, chain[1..], val, at, chain[0].at, n)
  }

  lemma {:induction false} BestMatches(base: bytes, trg: bytes, chain: seq<IndexEntry>, val: bv32, at: nat, moff: nat,
                                       msize: nat)
    requires Match(base, trg, moff, at, msize)
    ensures var (moff', msize') := Best(base, trg, chain, val, at, moff, msize);
      && Match(base, trg, moff', at, msize')
      && (msize' > msize || (msize' == msize && moff' == moff))
    decreases |chain|
  {
    hide Match;
    if chain != [] {
      var off := chain[0].at;
      BestMatches(base, trg, chain[1..], val, at, moff, msize);
      if chain[0].val == val && off <= |base| {
        InTarget(base, trg, moff, at, msize);
        AgreeIsLongest(base, trg, off, at);
        BestMatches(base, trg, chain[1..], val, at, off, Agree(base, trg, off, at));
      }
    }
  }

  lemma InTarget(base: bytes, trg: bytes, off: nat, at: nat, len: nat)
    requires Match(base, trg, off, at, len)
    ensures at + len <= |trg| && off + len <= |base|
  {}

  // No entry of the chain with this hash matches more than size bytes.
  ghost predicate NoLonger(base: bytes, trg: bytes, chain: seq<IndexEntry>, val: bv32, at: nat, size: nat) {
    forall e, n: nat :: e in chain && e.val == val && Match(base, trg, e.at, at, n) ==> n <= size
  }

  // What is behind in the chain is behind in the source, and has less of it left.
  lemma LaterAreShorter(base: bytes, trg: bytes, chain: seq<IndexEntry>, val: bv32, at: nat, size: nat)
    requires Ascending(chain) && chain != []
    requires |base| - chain[0].at <= size || |trg| - at <= size
    ensures NoLonger(base, trg, chain, val, at, size)
  {
    forall e, n: nat | e in chain && e.val == val && Match(base, trg, e.at, at, n) ensures n <= size {
      assert e == chain[0] || e in chain[1..];
    }
  }

  // In a chain that is in order the search finds the longest match, or one of 4096 bytes.
  lemma {:induction false} BestIsLongest(base: bytes, trg: bytes, chain: seq<IndexEntry>, val: bv32, at: nat, moff: nat,
                                         msize: nat)
    requires Ascending(chain) && at <= |trg|
    ensures var (moff', msize') := Best(base, trg, chain, val, at, moff, msize);
      msize' >= msize && (msize' < GOOD_MATCH ==> NoLonger(base, trg, chain, val, at, msize'))
    decreases |chain|
  {
    hide NoLonger;
    if chain == [] {
      NoneLonger(base, trg, val, at, msize);
    } else if chain[0].val == val && (|base| - chain[0].at <= msize || |trg| - at <= msize) {
      LaterAreShorter(base, trg, chain, val, at, msize);
    } else {
      var best := Best(base, trg, chain, val, at, moff, msize);
      BestIsLongest(base, trg, chain[1..], val, at, moff, msize);
      if chain[0].val == val {
        AgreeIsLongest(base, trg, chain[0].at, at);
        BestIsLongest(base, trg, chain[1..], val, at, chain[0].at, Agree(base, trg, chain[0].at, at));
      }
      if best.1 < GOOD_MATCH {
        OneNoLonger(base, trg, chain, val, at, best.1);
      }
    }
  }

  lemma NoneLonger(base: bytes, trg: bytes, val: bv32, at: nat, size: nat)
    ensures NoLonger(base, trg, [], val, at, size)
  {}

  lemma OneNoLonger(base: bytes, trg: bytes, chain: seq<IndexEntry>, val: bv32, at: nat, size: nat)
    requires chain != [] && NoLonger(base, trg, chain[1..], val, at, size)
    requires chain[0].val == val ==> forall n: nat :: Match(base, trg, chain[0].at, at, n) ==> n <= size
    ensures NoLonger(base, trg, chain, val, at, size)
  {
    forall e, n: nat | e in chain && e.val == val && Match(base, trg, e.at, at, n) ensures n <= size {
      assert e == chain[0] || e in chain[1..];
    }
  }

  // ----- the places

  // What an insert of n bytes takes, with its count.
  function Insert(n: nat): nat {
    if n == 0 then 0 else n + 1
  }

  // The encoder has come to data: done bytes are written, inscnt more of the target are in the open insert,
  // and msize bytes from moff on are known to match.
  datatype Place = Place(done: nat, data: nat, inscnt: nat, moff: nat, msize: nat) {
    function Pos(): nat {
      done + Insert(inscnt)
    }

    // There is a pass to be made.
    predicate Goes(trg: bytes) {
      WINDOW <= data < |trg| && inscnt < 0x7f
    }
  }

  ghost function Found(ix: Blocks, trg: bytes, p: Place): (nat, nat)
    requires p.Goes(trg)
  {
    if p.msize >= GOOD_MATCH then (p.moff, p.msize)
    else
      var val := Hash(trg[p.data - 15..p.data + 1]);
      Best(ix.src, trg, ix.Chain(Bucket(val, ix.mask)), val, p.data, p.moff, p.msize)
  }

  // One byte more in the open insert.
  function WithLiteral(p: Place, moff: nat): Place {
    Place(if p.inscnt + 1 == 0x7f then p.done + 0x80 else p.done, p.data + 1, (p.inscnt + 1) % 0x7f, moff, 0)
  }

  // A copy: the match is extended backwards into the open insert, and as much of it is copied as one command can.
  function WithCopy(base: bytes, trg: bytes, p: Place, moff: nat, msize: nat): (p': Place)
    requires msize >= 4 && p.inscnt < 0x7f
    ensures p'.data > p.data
  {
    var back := Back(base, trg, moff, p.data, p.inscnt);
    var len := if msize + back < COPY_MAX then msize + back else COPY_MAX;
    Place(p.done + Insert(p.inscnt - back) + |CopyBytes(moff - back, len)|, p.data - back + len, 0, moff - back + len,
          msize + back - len)
  }

  // One pass.
  ghost function Step(ix: Blocks, trg: bytes, p: Place): (p': Place)
    requires p.Goes(trg)
    ensures p'.data > p.data && p'.inscnt < 0x7f
  {
    var (moff, msize) := Found(ix, trg, p);
    if msize < 4 then WithLiteral(p, moff) else WithCopy(ix.src, trg, p, moff, msize)
  }

  // The first place: the header is written, and the first window is in the open insert.
  function Origin(base: bytes, trg: bytes): Place {
    var n := if |trg| < WINDOW then |trg| else WINDOW;
    Place(|HeaderBytes(base, trg)|, n, n, 0, 0)
  }

  // The furthest position that the encoder comes to after the passes from p on.
  ghost function Peak(ix: Blocks, trg: bytes, p: Place): nat
    decreases |trg| - p.data
  {
    if !p.Goes(trg) then p.Pos()
    else
      var p' := Step(ix, trg, p);
      var later := Peak(ix, trg, p');
      if later < p'.Pos() then p'.Pos() else later
  }

  // The position at which it ends.
  ghost function End(ix: Blocks, trg: bytes, p: Place): nat
    decreases |trg| - p.data
  {
    if !p.Goes(trg) then p.Pos() else End(ix, trg, Step(ix, trg, p))
  }

  lemma {:induction false} EndIsBelowPeak(ix: Blocks, trg: bytes, p: Place)
    ensures End(ix, trg, p) <= Peak(ix, trg, p)
    decreases |trg| - p.data
  {
    if p.Goes(trg) {
      EndIsBelowPeak(ix, trg, Step(ix, trg, p));
    }
  }
}
