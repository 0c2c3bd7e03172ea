// How long the deltas of delta.c become: for a target that is the base, for one that starts like the base,
// and for one that has nothing of it.

module DeltaLengths {
  import opened Bytes
  import opened DeltaFormat
  import opened RollingHash
  import opened RabinHash
  import opened DeltaIndex
  import opened DeltaPlaces

  // ----- what holds at every place

  // The match that is carried over is one.
  ghost predicate Sound(ix: Blocks, trg: bytes, p: Place) {
    && p.inscnt < 0x7f && p.data <= |trg| && (p.data < |trg| ==> WINDOW <= p.data)
    && Match(ix.src, trg, p.moff, p.data, p.msize)
  }

  lemma FoundMatches(ix: Blocks, trg: bytes, p: Place)
    requires p.Goes(trg) && Sound(ix, trg, p)
    ensures var (moff, msize) := Found(ix, trg, p);
      Match(ix.src, trg, moff, p.data, msize) && msize >= p.msize && moff <= |ix.src|
  {
    hide Match, Hash, Bucket, Best;
    var val := Hash(trg[p.data - 15..p.data + 1]);
    var chain := ix.Chain(Bucket(val, ix.mask));
    BestMatches(ix.src, trg, chain, val, p.data, p.moff, p.msize);
    var (moff, msize) := Found(ix, trg, p);
    InTarget(ix.src, trg, moff, p.data, msize);
  }

  // What is found is the longest match that the bucket has for this place, unless one of 4096 bytes was found or
  // carried over.
  lemma FoundIsLongest(ix: Blocks, trg: bytes, p: Place)
    requires p.Goes(trg) && forall k :: Ascending(ix.Chain(k))
    ensures var val, (_, msize) := Hash(trg[p.data - 15..p.data + 1]), Found(ix, trg, p);
      && msize >= p.msize
      && (msize < 4096 ==> NoLonger(ix.src, trg, ix.Chain(Bucket(val, ix.mask)), val, p.data, msize))
  {
    hide Match, Hash, Bucket, Best, NoLonger, Ascending;
    var val := Hash(trg[p.data - 15..p.data + 1]);
    BestIsLongest(ix.src, trg, ix.Chain(Bucket(val, ix.mask)), val, p.data, p.moff, p.msize);
  }

  lemma StepIsSound(ix: Blocks, trg: bytes, p: Place)
    requires p.Goes(trg) && Sound(ix, trg, p)
    ensures Sound(ix, trg, Step(ix, trg, p))
  {
    hide Match, Hash, Found;
    var (moff, msize) := Found(ix, trg, p);
    FoundMatches(ix, trg, p);
    if msize < 4 {
      NoMatch(ix.src, trg, moff, p.data + 1);
    } else {
      CopyIsSound(ix, trg, p, moff, msize);
    }
  }

  lemma NoMatch(base: bytes, trg: bytes, off: nat, at: nat)
    requires off <= |base| && at <= |trg|
    ensures Match(base, trg, off, at, 0)
  {}

  lemma CopyIsSound(ix: Blocks, trg: bytes, p: Place, moff: nat, msize: nat)
    requires p.Goes(trg) && Match(ix.src, trg, moff, p.data, msize) && msize >= 4
    ensures Sound(ix, trg, WithCopy(ix.src, trg, p, moff, msize))
  {
    hide Match, CopyBytes, Insert, WithCopy, Back;
    var p' := WithCopy(ix.src, trg, p, moff, msize);
    var back := Back(ix.src, trg, moff, p.data, p.inscnt);
    BackMatches(ix.src, trg, moff, p.data, p.inscnt, msize);
    CopyTakes(ix.src, trg, p, moff, msize);
    MatchSplit(ix.src, trg, moff - back, p.data - back, msize + back - p'.msize, p'.msize);
    InTarget(ix.src, trg, p'.moff, p'.data, p'.msize);
  }

  // The copy takes the start of the extended match.
  lemma CopyTakes(base: bytes, trg: bytes, p: Place, moff: nat, msize: nat)
    requires msize >= 4 && p.inscnt < 0x7f
    ensures var p', back := WithCopy(base, trg, p, moff, msize), Back(base, trg, moff, p.data, p.inscnt);
      && p'.msize <= msize + back && p'.inscnt == 0
      && p'.data - (p.data - back) == p'.moff - (moff - back) == msize + back - p'.msize
  {
    hide CopyBytes;
  }

  lemma OriginIsSound(ix: Blocks, trg: bytes)
    ensures Sound(ix, trg, Origin(ix.src, trg))
  {}

  // ----- a target that is the base

  // The first block is at the front of its bucket.
  ghost predicate FirstIsIndexed(ix: Blocks) {
    |ix.src| > WINDOW ==>
      var val := Hash(ix.src[1..17]);
      var chain := ix.Chain(Bucket(val, ix.mask));
      chain != [] && chain[0] == IndexEntry(WINDOW, val)
  }

  // What copies of the bytes from off to n take, up to 64 KB in each, with less than four bytes inserted.
  function Copies(off: nat, n: nat): nat
    requires off <= n
    decreases n - off
  {
    if n - off < 4 then Insert(n - off)
    else
      var len := if n - off < COPY_MAX then n - off else COPY_MAX;
      |CopyBytes(off, len)| + Copies(off + len, n)
  }

  // The length of the delta of a file against itself.
  function SelfLength(b: bytes): nat {
    |HeaderBytes(b, b)| + if |b| < 20 then Insert(|b|) else Copies(0, |b|)
  }

  // A match up to the end of the target cannot be made better.
  lemma BestStays(base: bytes, trg: bytes, chain: seq<IndexEntry>, val: bv32, at: nat, moff: nat, msize: nat)
    requires |trg| - at <= msize
    ensures Best(base, trg, chain, val, at, moff, msize) == (moff, msize)
    decreases |chain|
  {
    if chain != [] {
      BestStays(base, trg, chain[1..], val, at, moff, msize);
    }
  }

  lemma FoundStays(ix: Blocks, trg: bytes, p: Place)
    requires p.Goes(trg) && |trg| - p.data <= p.msize
    ensures Found(ix, trg, p) == (p.moff, p.msize)
  {
    hide Hash, Best, Bucket;
    var val := Hash(trg[p.data - 15..p.data + 1]);
    BestStays(ix.src, trg, ix.Chain(Bucket(val, ix.mask)), val, p.data, p.moff, p.msize);
  }

  // The last bytes, too few to be copied.
  lemma {:induction false} Tail(ix: Blocks, trg: bytes, p: Place)
    requires Sound(ix, trg, p) && |trg| - p.data < 4 && p.inscnt + (|trg| - p.data) < 0x7f
    ensures End(ix, trg, p) == Peak(ix, trg, p) == p.done + Insert(p.inscnt + (|trg| - p.data))
    decreases |trg| - p.data
  {
    hide Found, Match;
    if p.Goes(trg) {
      FoundMatches(ix, trg, p);
      InTarget(ix.src, trg, Found(ix, trg, p).0, p.data, Found(ix, trg, p).1);
      StepIsSound(ix, trg, p);
      Tail(ix, trg, Step(ix, trg, p));
    }
  }

  // A match up to the end is copied.
  lemma {:induction false} CopiesToEnd(ix: Blocks, trg: bytes, p: Place)
    requires Sound(ix, trg, p) && p.inscnt == 0 && p.moff == p.data && p.msize == |trg| - p.data
    ensures End(ix, trg, p) == Peak(ix, trg, p) == p.done + Copies(p.data, |trg|)
    decreases |trg| - p.data
  {
    hide Found, Match, CopyBytes;
    if p.msize < 4 {
      Tail(ix, trg, p);
    } else {
      FoundStays(ix, trg, p);
      StepIsSound(ix, trg, p);
      CopiesToEnd(ix, trg, Step(ix, trg, p));
    }
  }

  // The entry of the first block is looked at first.
  lemma FirstFound(ix: Blocks, trg: bytes, p: Place, n: nat)
    requires FirstIsIndexed(ix) && p == Origin(ix.src, trg) && WINDOW < n <= |ix.src| && n <= |trg|
    requires trg[..n] == ix.src[..n]
    ensures p.Goes(trg) && Found(ix, trg, p).1 >= n - WINDOW
    ensures n == |ix.src| == |trg| ==> Found(ix, trg, p) == (WINDOW, n - WINDOW)
  {
    hide Hash, Bucket, Match, Best;
    var val := Hash(trg[1..17]);
    assert trg[1..17] == trg[..n][1..17] == ix.src[..n][1..17] == ix.src[1..17];
    var chain := ix.Chain(Bucket(val, ix.mask));
    assert chain[0] == IndexEntry(WINDOW, val);
    AgreeIsLongest(ix.src, trg, WINDOW, WINDOW);
    PrefixMatches(ix.src, trg, WINDOW, n);
    var agree := Agree(ix.src, trg, WINDOW, WINDOW);
    InTarget(ix.src, trg, WINDOW, WINDOW, agree);
    BestOfFirst(ix.src, trg, chain, val, WINDOW, agree);
    BestStarts(ix.src, trg, chain[1..], val, WINDOW, WINDOW, agree);
    if n == |trg| {
      BestStays(ix.src, trg, chain[1..], val, WINDOW, WINDOW, agree);
    }
  }

  lemma PrefixMatches(base: bytes, trg: bytes, at: nat, n: nat)
    requires at <= n <= |base| && n <= |trg| && base[..n] == trg[..n]
    ensures Match(base, trg, at, at, n - at)
  {
    assert base[at..n] == base[..n][at..] == trg[..n][at..] == trg[at..n];
  }

  lemma BestOfFirst(base: bytes, trg: bytes, chain: seq<IndexEntry>, val: bv32, at: nat, n: nat)
    requires chain != [] && chain[0].val == val && chain[0].at < |base| && at < |trg|
    requires n == Agree(base, trg, chain[0].at, at) > 0
    ensures Best(base, trg, chain, val, at, 0, 0) ==
      if n >= GOOD_MATCH then (chain[0].at, n) else Best(base, trg, chain[1..], val, at, chain[0].at, n)
  {}

  lemma {:induction false} BestStarts(base: bytes, trg: bytes, chain: seq<IndexEntry>, val: bv32, at: nat, moff: nat,
                                      msize: nat)
    ensures Best(base, trg, chain, val, at, moff, msize).1 >= msize
    decreases |chain|
  {
    if chain != [] {
      BestStarts(base, trg, chain[1..], val, at, moff, msize);
      var n := Agree(base, trg, chain[0].at, at);
      BestStarts(base, trg, chain[1..], val, at, chain[0].at, n);
    }
  }

  lemma {:induction false} BackAll(b: bytes, at: nat, limit: nat)
    requires at <= |b| && limit <= at
    ensures Back(b, b, at, at, limit) == limit
    decreases limit
  {
    if limit > 0 {
      BackAll(b, at - 1, limit - 1);
    }
  }

  // A file against itself is copied whole, and the first window with it.
  lemma SameFile(ix: Blocks)
    requires FirstIsIndexed(ix)
    ensures var p := Origin(ix.src, ix.src);
      End(ix, ix.src, p) == Peak(ix, ix.src, p) == SelfLength(ix.src)
  {
    hide Found, Match, CopyBytes, HeaderBytes, FirstIsIndexed;
    var b := ix.src;
    var p := Origin(b, b);
    OriginIsSound(ix, b);
    if |b| < 20 {
      Tail(ix, b, p);
    } else {
      FirstFound(ix, b, p, |b|);
      StepIsSound(ix, b, p);
      BackAll(b, WINDOW, WINDOW);
      CopiesToEnd(ix, b, Step(ix, b, p));
    }
  }

  // It takes at most seven bytes for each 64 KB, and three for a file up to that size.
  lemma SelfIsShort(b: bytes)
    requires |b| <= 0x8000_0000
    ensures |b| >= 20 ==> SelfLength(b) <= |HeaderBytes(b, b)| + 7 * (|b| / COPY_MAX + 1)
    ensures 20 <= |b| <= COPY_MAX ==> SelfLength(b) <= |HeaderBytes(b, b)| + 3
    ensures SelfLength(b) <= 230_000
  {
    hide CopyBytes, SizeBytes;
    SizeBytesLength(|b|);
    if |b| >= 20 {
      CopiesAreShort(0, |b|);
      if |b| <= COPY_MAX {
        CopyBytesLength(0, |b|);
        assert Copies(0, |b|) == |CopyBytes(0, |b|)| + Copies(|b|, |b|);
      }
    }
  }

  lemma {:induction false} CopiesAreShort(off: nat, n: nat)
    requires off <= n
    ensures Copies(off, n) <= 7 * ((n - off) / COPY_MAX + 1)
    decreases n - off
  {
    hide CopyBytes;
    if n - off >= 4 {
      var len := if n - off < COPY_MAX then n - off else COPY_MAX;
      CopyBytesLength(off, len);
      CopiesAreShort(off + len, n);
    }
  }

  lemma OperandsLength(v: bytes)
    ensures |OperandBytes(v)| == if v == [] then 0 else (if v[0] == 0 then 0 else 1) + |OperandBytes(v[1..])|
  {}

  // The offset takes up to four bytes, and the size up to two.
  lemma CopyBytesLength(off: nat, len: nat)
    requires len <= COPY_MAX
    ensures |CopyBytes(off, len)| <= (if off == 0 then 3 else if len < 0x100 then 6 else 7)
    ensures |CopyBytes(off, len)| >= 1
  {
    var v := Operands(off, len);
    hide OperandBytes;
    var v1 := v[1..];
    var v2 := v1[1..];
    var v3 := v2[1..];
    var v4 := v3[1..];
    var v5 := v4[1..];
    var v6 := v5[1..];
    assert v6[1..] == [];
    OperandsLength(v);
    OperandsLength(v1);
    OperandsLength(v2);
    OperandsLength(v3);
    OperandsLength(v4);
    OperandsLength(v5);
    OperandsLength(v6);
    OperandsLength([]);
  }

  lemma SizeBytesLength(n: nat)
    requires n < WORD
    ensures n < 0x80 ==> |SizeBytes(n)| == 1
    ensures n >= 0x1000_0000 ==> |SizeBytes(n)| == 5
    ensures |SizeBytes(n)| <= 5
  {
    var q1 := n / 0x80;
    var q2 := q1 / 0x80;
    var q3 := q2 / 0x80;
    var q4 := q3 / 0x80;
    assert |SizeBytes(n)| == if n < 0x80 then 1 else 1 + |SizeBytes(q1)|;
    assert |SizeBytes(q1)| == if q1 < 0x80 then 1 else 1 + |SizeBytes(q2)|;
    assert |SizeBytes(q2)| == if q2 < 0x80 then 1 else 1 + |SizeBytes(q3)|;
    assert |SizeBytes(q3)| == if q3 < 0x80 then 1 else 1 + |SizeBytes(q4)|;
  }

  // The index of a source has its first block at the front of a bucket.
  lemma {:induction false} FirstCollapsed(src: bytes, n: nat)
    requires 0 < n && n * WINDOW < |src|
    ensures Collapsed(src, 0, n) != [] && Collapsed(src, 0, n)[0] == BlockEntry(src, 0)
  {
    hide Hash;
  }

  lemma IndexHasFirst(ix: Blocks)
    requires ix.src != [] && forall k :: ix.Chain(k) == BucketOf(ix.src, k, ix.mask)
    ensures FirstIsIndexed(ix)
  {
    hide Hash, Bucket, Collapsed;
    if |ix.src| > WINDOW {
      var n := BlockCount(|ix.src|);
      var val := Hash(ix.src[1..17]);
      FirstCollapsed(ix.src, n);
      assert BlockEntry(ix.src, 0) == IndexEntry(WINDOW, val);
      var k := Bucket(val, ix.mask);
      assert ix.Chain(k) == BucketOf(ix.src, k, ix.mask);
    }
  }

  // ----- a target that starts like the base

  // Eight bytes are written for five of the target at most.
  predicate Under(c: int, p: Place) {
    5 * p.Pos() <= c + 8 * p.data + if p.inscnt == 0 then 0 else 5 - 3 * p.inscnt
  }

  lemma StepIsUnder(ix: Blocks, trg: bytes, p: Place, c: int)
    requires p.Goes(trg) && Sound(ix, trg, p) && Under(c, p)
    ensures Under(c, Step(ix, trg, p))
  {
    hide Found, Match, CopyBytes;
    var (moff, msize) := Found(ix, trg, p);
    if msize >= 4 {
      var back := Back(ix.src, trg, moff, p.data, p.inscnt);
      var len := if msize + back < COPY_MAX then msize + back else COPY_MAX;
      CopyBytesLength(moff - back, len);
    }
  }

  lemma {:induction false} PeakIsUnder(ix: Blocks, trg: bytes, p: Place, c: int)
    requires Sound(ix, trg, p) && Under(c, p)
    ensures 5 * Peak(ix, trg, p) <= c + 8 * |trg| + 2
    decreases |trg| - p.data
  {
    hide Step, Match;
    if p.Goes(trg) {
      StepIsSound(ix, trg, p);
      StepIsUnder(ix, trg, p, c);
      PeakIsUnder(ix, trg, Step(ix, trg, p), c);
    }
  }

  // How many commands copy up to n.
  function Chunks(data: nat, n: nat): nat {
    if data >= n then 0 else (n - data) / COPY_MAX + 1
  }

  // A match that reaches n is copied up to there.
  lemma {:induction false} CopiesPrefix(ix: Blocks, trg: bytes, p: Place, n: nat)
    requires Sound(ix, trg, p) && p.inscnt == 0 && p.data + p.msize >= n && n <= |trg|
    ensures 5 * Peak(ix, trg, p) <= 5 * p.done + 35 * Chunks(p.data, n) + 8 * (|trg| - n) + 26
    decreases |trg| - p.data
  {
    hide Found, Match, CopyBytes, Peak;
    if !p.Goes(trg) || p.data + 4 > n {
      PeakIsUnder(ix, trg, p, 5 * p.done - 8 * p.data);
    } else {
      FoundMatches(ix, trg, p);
      var (moff, msize) := Found(ix, trg, p);
      var p' := Step(ix, trg, p);
      CopyBytesLength(moff, if msize < COPY_MAX then msize else COPY_MAX);
      StepIsSound(ix, trg, p);
      CopiesPrefix(ix, trg, p', n);
      PeakIs(ix, trg, p);
    }
  }

  lemma PeakIs(ix: Blocks, trg: bytes, p: Place)
    requires p.Goes(trg)
    ensures var p' := Step(ix, trg, p);
      Peak(ix, trg, p) == if Peak(ix, trg, p') < p'.Pos() then p'.Pos() else Peak(ix, trg, p')
  {}

  // What the delta of a target can take that has the first n bytes of the base at its start.
  function PrefixLength(base: bytes, trg: bytes, n: nat): nat
    requires n <= |trg|
  {
    |HeaderBytes(base, trg)| + 30 + 7 * (n / COPY_MAX + 1) + 8 * (|trg| - n) / 5
  }

  // The first pass copies, and what it leaves reaches n.
  lemma FirstCopy(ix: Blocks, trg: bytes, n: nat)
    requires FirstIsIndexed(ix) && 20 <= n <= |ix.src| && n <= |trg| && trg[..n] == ix.src[..n]
    ensures var p := Origin(ix.src, trg);
      && p.Goes(trg)
      && var p' := Step(ix, trg, p);
         Sound(ix, trg, p') && p'.inscnt == 0 && p'.data + p'.msize >= n && p'.done <= |HeaderBytes(ix.src, trg)| + 24
  {
    hide Found, Match, CopyBytes, HeaderBytes, FirstIsIndexed, WithCopy, Back;
    var p := Origin(ix.src, trg);
    OriginIsSound(ix, trg);
    FirstFound(ix, trg, p, n);
    var (moff, msize) := Found(ix, trg, p);
    StepIsSound(ix, trg, p);
    CopyTakes(ix.src, trg, p, moff, msize);
    CopyWrites(ix.src, trg, p, moff, msize);
  }

  lemma CopyWrites(base: bytes, trg: bytes, p: Place, moff: nat, msize: nat)
    requires msize >= 4 && p.inscnt < 0x7f
    ensures WithCopy(base, trg, p, moff, msize).done <= p.Pos() + 7
  {
    hide CopyBytes;
    var back := Back(base, trg, moff, p.data, p.inscnt);
    CopyBytesLength(moff - back, if msize + back < COPY_MAX then msize + back else COPY_MAX);
  }

  lemma PrefixIsShort(ix: Blocks, trg: bytes, n: nat)
    requires FirstIsIndexed(ix) && 20 <= n <= |ix.src| && n <= |trg| && trg[..n] == ix.src[..n]
    ensures Peak(ix, trg, Origin(ix.src, trg)) <= PrefixLength(ix.src, trg, n)
  {
    hide Step, HeaderBytes, FirstIsIndexed, Peak, Sound;
    var p := Origin(ix.src, trg);
    FirstCopy(ix, trg, n);
    CopiesPrefix(ix, trg, Step(ix, trg, p), n);
    PeakIs(ix, trg, p);
    FewerChunks(Step(ix, trg, p).data, n);
  }

  lemma FewerChunks(data: nat, n: nat)
    ensures Chunks(data, n) <= n / COPY_MAX + 1
  {}

  // ----- a target that has nothing of the base

  // No four bytes of the base are found in the target.
  ghost predicate Apart(base: bytes, trg: bytes) {
    forall ref: nat, at: nat :: !Match(base, trg, ref, at, 4)
  }

  // Nothing of the base can be found in the target, or nothing of it is in the index.
  ghost predicate NoMatches(ix: Blocks, trg: bytes) {
    (forall k :: ix.Chain(k) == []) || Apart(ix.src, trg)
  }

  lemma ApartIsShort(base: bytes, trg: bytes, ref: nat, at: nat, len: nat)
    requires Match(base, trg, ref, at, len) && Apart(base, trg)
    ensures len < 4
  {
    if len >= 4 {
      MatchSplit(base, trg, ref, at, 4, len - 4);
    }
  }

  // What n literals take, with the places of their counts.
  function Literals(n: nat): nat {
    n + (n + 126) / 0x7f
  }

  lemma OneMore(n: nat)
    ensures (n + 1) % 0x7f == (n % 0x7f + 1) % 0x7f
    ensures Literals(n + 1) == Literals(n) + if n % 0x7f == 0 then 2 else 1
  {
    var q, k := n / 0x7f, n % 0x7f;
    assert n == 0x7f * q + k;
    assert (n + 126) / 0x7f == if k == 0 then q else q + 1;
    assert (n + 1 + 126) / 0x7f == q + 1;
  }

  // The length of the delta of a target that is all literals.
  function LiteralEnd(base: bytes, trg: bytes): nat {
    |HeaderBytes(base, trg)| + Literals(|trg|)
  }

  // Everything up to data is in inserts.
  predicate AllLiterals(base: bytes, trg: bytes, p: Place) {
    p.msize == 0 && p.inscnt == p.data % 0x7f && p.Pos() == |HeaderBytes(base, trg)| + Literals(p.data)
  }

  lemma NothingFound(ix: Blocks, trg: bytes, p: Place)
    requires p.Goes(trg) && Sound(ix, trg, p) && NoMatches(ix, trg) && p.msize == 0
    ensures Found(ix, trg, p).1 < 4
  {
    hide Match, Hash, Bucket, Apart;
    FoundMatches(ix, trg, p);
    if Apart(ix.src, trg) {
      ApartIsShort(ix.src, trg, Found(ix, trg, p).0, p.data, Found(ix, trg, p).1);
    }
  }

  lemma OneMoreLiteral(base: bytes, trg: bytes, p: Place, moff: nat)
    requires AllLiterals(base, trg, p)
    ensures AllLiterals(base, trg, WithLiteral(p, moff))
  {
    hide HeaderBytes, Literals;
    OneMore(p.data);
  }

  lemma {:induction false} LiteralsOnly(ix: Blocks, trg: bytes, p: Place)
    requires Sound(ix, trg, p) && NoMatches(ix, trg) && AllLiterals(ix.src, trg, p)
    ensures End(ix, trg, p) == Peak(ix, trg, p) == LiteralEnd(ix.src, trg)
    decreases |trg| - p.data
  {
    hide Found, Match, NoMatches, Literals, HeaderBytes, AllLiterals;
    LiteralsAt(ix.src, trg, p);
    if p.Goes(trg) {
      NothingFound(ix, trg, p);
      OneMoreLiteral(ix.src, trg, p, Found(ix, trg, p).0);
      StepIsSound(ix, trg, p);
      LiteralsOnly(ix, trg, Step(ix, trg, p));
      LiteralsAt(ix.src, trg, Step(ix, trg, p));
      LiteralsGrow(Step(ix, trg, p).data, |trg|);
    }
  }

  lemma LiteralsAt(base: bytes, trg: bytes, p: Place)
    requires AllLiterals(base, trg, p)
    ensures p.Pos() == |HeaderBytes(base, trg)| + Literals(p.data) && p.msize == 0
  {}

  lemma LiteralsGrow(m: nat, n: nat)
    requires m <= n
    ensures Literals(m) <= Literals(n)
  {}

  // Such a target is written byte by byte.
  lemma ApartIsInserted(ix: Blocks, trg: bytes)
    requires NoMatches(ix, trg)
    ensures var p := Origin(ix.src, trg);
      End(ix, trg, p) == Peak(ix, trg, p) == LiteralEnd(ix.src, trg)
  {
    hide NoMatches, Sound, HeaderBytes;
    OriginIsSound(ix, trg);
    LiteralsOnly(ix, trg, Origin(ix.src, trg));
  }

  // ----- a target with something new at its end

  // No four bytes of the base are found in the target behind place m, or reach over it.
  ghost predicate ApartFrom(base: bytes, trg: bytes, m: nat) {
    forall ref: nat, at: nat, len: nat :: len >= 4 && Match(base, trg, ref, at, len) ==> at + len <= m
  }

  // What is behind m is written byte by byte.
  lemma {:induction false} NewIsInserted(ix: Blocks, trg: bytes, p: Place, m: nat)
    requires Sound(ix, trg, p) && ApartFrom(ix.src, trg, m) && p.data <= p.Pos() + m
    ensures |trg| <= End(ix, trg, p) + m
    decreases |trg| - p.data
  {
    hide Found, Match, ApartFrom, CopyBytes;
    if p.Goes(trg) {
      var (moff, msize) := Found(ix, trg, p);
      FoundMatches(ix, trg, p);
      if msize >= 4 {
        EndsBefore(ix.src, trg, moff, p.data, msize, m);
      }
      StepIsSound(ix, trg, p);
      NewIsInserted(ix, trg, Step(ix, trg, p), m);
    }
  }

  lemma EndsBefore(base: bytes, trg: bytes, ref: nat, at: nat, len: nat, m: nat)
    requires ApartFrom(base, trg, m) && len >= 4 && Match(base, trg, ref, at, len)
    ensures at + len <= m
  {}

  lemma NewIsWritten(ix: Blocks, trg: bytes, m: nat)
    requires ApartFrom(ix.src, trg, m)
    ensures |trg| <= End(ix, trg, Origin(ix.src, trg)) + m
    ensures |trg| <= Peak(ix, trg, Origin(ix.src, trg)) + m
  {
    hide ApartFrom, Sound;
    OriginIsSound(ix, trg);
    NewIsInserted(ix, trg, Origin(ix.src, trg), m);
    EndIsBelowPeak(ix, trg, Origin(ix.src, trg));
  }

  // A target that starts like the base and goes on with bytes that the base does not have.
  function BaseAndZeros(base: bytes, n: nat): bytes {
    base + seq(n, i => 0)
  }

  lemma ZerosAreApart(base: bytes, n: nat)
    requires 0 !in base
    ensures ApartFrom(base, BaseAndZeros(base, n), |base|)
  {
    var trg := BaseAndZeros(base, n);
    forall ref: nat, at: nat, len: nat | len >= 4 && Match(base, trg, ref, at, len) ensures at + len <= |base| {
      MatchedByte(base, trg, ref, at, len, len - 1);
      assert base[ref + len - 1] in base;
      assert trg[at + len - 1] != 0;
    }
  }

  // ----- a target for which the encoder comes further than it ends

  // A base of 33 bytes, all different, and a target of 16 other bytes and then the base without its first byte.
  function LateBase(): (b: bytes)
    ensures |b| == 33 && forall i :: 0 <= i < 33 ==> b[i] == i + 1
  {
    seq(33, i requires 0 <= i < 33 => i + 1)
  }

  function LateTarget(): (t: bytes)
    ensures |t| == 48 && forall i :: 0 <= i < 48 ==> t[i] == if i < 16 then 0 else i - 14
  {
    seq(48, i requires 0 <= i < 48 => if i < 16 then 0 else i - 14)
  }

  lemma LateBytes()
    ensures LateTarget()[16..] == LateBase()[1..]
  {}

  // What the index has of the base.
  ghost predicate HasBlocks(ix: Blocks) {
    ix.src == LateBase() && FirstIsIndexed(ix) && forall k, e :: e in ix.Chain(k) ==> 16 <= e.at < 33
  }

  lemma {:induction false} NothingBegins(chain: seq<IndexEntry>, val: bv32, d: nat)
    requires 16 <= d < 31 && forall e :: e in chain ==> 16 <= e.at < 33
    ensures Best(LateBase(), LateTarget(), chain, val, d, 0, 0) == (0, 0)
    decreases |chain|
  {
    if chain != [] {
      assert chain[0] in chain;
      assert Agree(LateBase(), LateTarget(), chain[0].at, d) == 0;
      NothingBegins(chain[1..], val, d);
    }
  }

  lemma LateMatch(ix: Blocks)
    requires HasBlocks(ix)
    ensures var p := Place(|HeaderBytes(LateBase(), LateTarget())|, 31, 31, 0, 0);
      p.Goes(LateTarget()) && Found(ix, LateTarget(), p) == (16, 17)
  {
    hide Hash, Bucket, Match, Best;
    LateBytes();
    var val := Hash(LateBase()[1..17]);
    assert LateTarget()[16..32] == LateBase()[1..17];
    var chain := ix.Chain(Bucket(val, ix.mask));
    PrefixLike();
    BestOfFirst(LateBase(), LateTarget(), chain, val, 31, 17);
    BestStays(LateBase(), LateTarget(), chain[1..], val, 31, 16, 17);
  }

  lemma PrefixLike()
    ensures Agree(LateBase(), LateTarget(), 16, 31) == 17
  {
    assert LateBase()[16..33] == LateTarget()[31..48];
    AgreeIs(LateBase(), LateTarget(), 16, 31, 17);
  }

  lemma {:induction false} BackTo(n: nat)
    requires n <= 15
    ensures Back(LateBase(), LateTarget(), n + 1, n + 16, n + 16) == n
  {
    if n > 0 {
      BackTo(n - 1);
    }
  }

  // From place d on: literals, and then the match that takes fifteen of them back.
  lemma {:induction false} LateWalk(ix: Blocks, d: nat)
    requires HasBlocks(ix) && 16 <= d <= 31
    ensures var h := |HeaderBytes(LateBase(), LateTarget())|;
      var p := Place(h, d, d, 0, 0);
      && End(ix, LateTarget(), p) == h + 17 + |CopyBytes(1, 32)|
      && (d < 31 ==> Peak(ix, LateTarget(), p) >= h + 32)
    decreases 31 - d
  {
    hide Found, CopyBytes, HeaderBytes, FirstIsIndexed, WithCopy;
    var p := Place(|HeaderBytes(LateBase(), LateTarget())|, d, d, 0, 0);
    LateBytes();
    if d < 31 {
      NothingFoundAt(ix, d);
      LateWalk(ix, d + 1);
    } else {
      LateMatch(ix);
      LateCopied(p);
      EndAt(ix, LateTarget(), WithCopy(LateBase(), LateTarget(), p, 16, 17));
    }
  }

  lemma LateCopied(p: Place)
    requires p.data == p.inscnt == 31
    ensures WithCopy(LateBase(), LateTarget(), p, 16, 17) == Place(p.done + 17 + |CopyBytes(1, 32)|, 48, 0, 33, 0)
  {
    hide Back, CopyBytes;
    BackTo(15);
    assert Back(LateBase(), LateTarget(), 16, 31, 31) == 15;
    assert Insert(31 - 15) == 17;
  }

  lemma EndAt(ix: Blocks, trg: bytes, p: Place)
    requires p.data >= |trg|
    ensures End(ix, trg, p) == p.Pos()
  {}

  lemma NothingFoundAt(ix: Blocks, d: nat)
    requires HasBlocks(ix) && 16 <= d < 31
    ensures var p := Place(|HeaderBytes(LateBase(), LateTarget())|, d, d, 0, 0);
      p.Goes(LateTarget()) && Found(ix, LateTarget(), p) == (0, 0)
  {
    hide Hash, Bucket;
    LateBytes();
    var val := Hash(LateTarget()[d - 15..d + 1]);
    NothingBegins(ix.Chain(Bucket(val, ix.mask)), val, d);
  }

  // The delta ends twelve bytes before the place that the encoder had come to: a limit between the two refuses a delta
  // that is not too long.
  lemma EndsBeforePeak(ix: Blocks)
    requires ix.src == LateBase() && forall k :: ix.Chain(k) == BucketOf(LateBase(), k, ix.mask)
    ensures var h, p := |HeaderBytes(LateBase(), LateTarget())|, Origin(LateBase(), LateTarget());
      End(ix, LateTarget(), p) == h + 20 && Peak(ix, LateTarget(), p) >= h + 32
  {
    hide HeaderBytes, BucketOf;
    LateBytes();
    IndexHasFirst(ix);
    forall k, e | e in ix.Chain(k) ensures 16 <= e.at < 33 {
      InBlocks(LateBase(), k, ix.mask, e);
    }
    LateWalk(ix, 16);
    LateCopy();
  }

  lemma LateCopy()
    ensures |CopyBytes(1, 32)| == 3
  {
    var v := Operands(1, 32);
    hide OperandBytes;
    var v1 := v[1..];
    var v2 := v1[1..];
    var v3 := v2[1..];
    var v4 := v3[1..];
    var v5 := v4[1..];
    var v6 := v5[1..];
    assert v6[1..] == [];
    OperandsLength(v);
    OperandsLength(v1);
    OperandsLength(v2);
    OperandsLength(v3);
    OperandsLength(v4);
    OperandsLength(v5);
    OperandsLength(v6);
    OperandsLength([]);
  }

  // The entries of an index are of its blocks.
  lemma InBlocks(src: bytes, k: nat, mask: bv32, e: IndexEntry)
    requires src != [] && |src| < 0xffff_ffff && e in BucketOf(src, k, mask)
    ensures 16 <= e.at < |src|
  {
    hide Hash, Bucket, Thin, Collapsed, InBucket;
    var n := BlockCount(|src|);
    var entries := Collapsed(src, 0, n);
    var chain := InBucket(entries, k, mask);
    ThinnedIsPart(chain, |chain| / HASH_LIMIT / 2);
    CollapsedAscends(src, 0, n);
    BucketAscends(entries, k, mask);
    CollapsedFits(src, 0, n);
  }

  lemma {:induction false} CollapsedFits(src: bytes, j: nat, n: nat)
    requires j <= n && n * WINDOW < |src|
    ensures forall e :: e in Collapsed(src, j, n) ==> e.at < |src|
    decreases n - j
  {
    hide Hash;
    if j < n {
      CollapsedFits(src, j + 1, n);
    }
  }
}
