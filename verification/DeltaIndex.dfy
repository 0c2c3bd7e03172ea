// The index of delta.c: the blocks of the source buffer, hashed into buckets.

module DeltaIndex {
  import opened Bytes
  import opened RollingHash
  import opened RabinHash

  const HASH_LIMIT := 64

  // An indexed block: its last byte is at position at of the source, and val is its hash.
  datatype IndexEntry = IndexEntry(at: nat, val: bv32)

  // The bucket of a hash value: val & mask.
  function Bucket(val: bv32, mask: bv32): nat {
    (val & mask) as int
  }

  // The contents of an index, as a value.
  datatype Blocks = Blocks(src: bytes, mask: bv32, hash: map<nat, seq<IndexEntry>>) {
    function Chain(k: nat): seq<IndexEntry> {
      if k in hash then hash[k] else []
    }
  }

  class Index {
    const src: bytes
    const mask: bv32
    // The chain of each bucket that is not empty, first entry first.
    var hash: map<nat, seq<IndexEntry>>

    constructor (src: bytes, mask: bv32)
      ensures this.src == src && this.mask == mask && hash == map[]
    {
      this.src, this.mask, hash := src, mask, map[];
    }

    function Chain(k: nat): seq<IndexEntry>
      reads this
    {
      if k in hash then hash[k] else []
    }

    function View(): (ix: Blocks)
      reads this
      ensures forall k :: ix.Chain(k) == Chain(k)
    {
      Blocks(src, mask, hash)
    }

    // What the encoder relies on: no entry points past the end of the source.
    ghost predicate InBase()
      reads this
    {
      forall k, e :: e in Chain(k) ==> e.at <= |src|
    }

    ghost predicate IsEmpty()
      reads this
    {
      forall k :: Chain(k) == []
    }

    // In a bucket the blocks are in the order of the source.
    ghost predicate Ordered()
      reads this
    {
      forall k :: Ascending(Chain(k))
    }

    // An entry of bucket k holds the hash of the sixteen bytes that end at it.
    ghost predicate Belongs(e: IndexEntry, k: nat) {
      WINDOW <= e.at < |src| && e.val == Hash(src[e.at - 15..e.at + 1]) && Bucket(e.val, mask) == k
    }

    ghost predicate Faithful()
      reads this
    {
      forall k, e :: e in Chain(k) ==> Belongs(e, k)
    }

    // Puts an entry in front of its bucket.
    method Add(e: IndexEntry, k: nat)
      requires Faithful() && Belongs(e, k)
      modifies this`hash
      ensures Faithful()
      ensures Chain(k) == [e] + old(Chain(k))
      ensures forall k' :: k' != k ==> Chain(k') == old(Chain(k'))
    {
      hash := hash[k := [e] + Chain(k)];
    }

    // Lets the newest entry of bucket k point to an earlier block with the same hash.
    method Lower(k: nat, at: nat)
      requires Faithful() && Chain(k) != [] && Belongs(Chain(k)[0].(at := at), k)
      modifies this`hash
      ensures Faithful()
      ensures Chain(k) == [old(Chain(k)[0]).(at := at)] + old(Chain(k))[1..]
      ensures forall k' :: k' != k ==> Chain(k') == old(Chain(k'))
    {
      hash := hash[k := [hash[k][0].(at := at)] + hash[k][1..]];
    }

    // keep->next = entry in the chain of bucket k
    method Cull(k: nat)
      requires Faithful()
      modifies this`hash
      ensures Faithful()
      ensures Chain(k) == Culled(old(Chain(k)))
      ensures forall k' :: k' != k ==> Chain(k') == old(Chain(k'))
    {
      var chain := Chain(k);
      if |chain| >= HASH_LIMIT {
        var kept := Keep(chain);
        ThinnedIsPart(chain, |chain| / HASH_LIMIT / 2);
        hash := hash[k := kept];
      }
    }

    // The culling loop over all buckets.
    method CullAll()
      requires Faithful()
      modifies this`hash
      ensures Faithful()
      ensures forall k :: Chain(k) == Culled(old(Chain(k)))
    {
      hide Faithful;
      var buckets := hash.Keys;
      while buckets != {}
        invariant Faithful()
        invariant forall k :: Chain(k) == if k in buckets then old(Chain(k)) else Culled(old(Chain(k)))
        decreases buckets
      {
        var k :| k in buckets;
        Cull(k);
        buckets := buckets - {k};
      }
    }
  }

  predicate Ascending(chain: seq<IndexEntry>) {
    chain == [] || ((forall e :: e in chain[1..] ==> chain[0].at < e.at) && Ascending(chain[1..]))
  }

  lemma {:induction false} AscendingAt(chain: seq<IndexEntry>, i: nat, j: nat)
    requires Ascending(chain) && i < j < |chain|
    ensures chain[i].at < chain[j].at
  {
    if i == 0 {
      assert chain[j] == chain[1..][j - 1];
    } else {
      AscendingAt(chain[1..], i - 1, j - 1);
    }
  }

  // ----- the blocks of the source

  // The entry of block j.
  ghost function BlockEntry(src: bytes, j: nat): IndexEntry
    requires (j + 1) * WINDOW < |src|
  {
    IndexEntry(j * WINDOW + WINDOW, Hash(src[j * WINDOW + 1..j * WINDOW + WINDOW + 1]))
  }

  // The entries of blocks j to n. Of consecutive blocks with the same hash only the first has one.
  ghost function Collapsed(src: bytes, j: nat, n: nat): seq<IndexEntry>
    requires j <= n && n * WINDOW < |src|
    decreases n - j
  {
    if j == n then []
    else
      var e, more := BlockEntry(src, j), Collapsed(src, j + 1, n);
      if more != [] && more[0].val == e.val then [e] + more[1..] else [e] + more
  }

  function InBucket(entries: seq<IndexEntry>, k: nat, mask: bv32): seq<IndexEntry> {
    if entries == [] then []
    else (if Bucket(entries[0].val, mask) == k then [entries[0]] else []) + InBucket(entries[1..], k, mask)
  }

  lemma {:induction false} CollapsedAscends(src: bytes, j: nat, n: nat)
    requires j <= n && n * WINDOW < |src|
    ensures Ascending(Collapsed(src, j, n))
    ensures forall e :: e in Collapsed(src, j, n) ==> (j + 1) * WINDOW <= e.at
    decreases n - j
  {
    hide Hash;
    if j < n {
      CollapsedAscends(src, j + 1, n);
    }
  }

  // Blocks k to j have the same hash.
  ghost predicate SameHash(src: bytes, k: nat, j: nat)
    requires (j + 1) * WINDOW < |src|
  {
    forall i :: k <= i <= j ==> BlockEntry(src, i).val == BlockEntry(src, j).val
  }

  // No block is left out: it has its entry, or the first of a run of blocks with its hash has one for all of them.
  lemma {:induction false} BlockIsIndexed(src: bytes, s: nat, n: nat, j: nat) returns (k: nat)
    requires s <= j < n && n * WINDOW < |src|
    ensures s <= k <= j && (k + 1) * WINDOW < |src| && BlockEntry(src, k) in Collapsed(src, s, n)
    ensures (j + 1) * WINDOW < |src| && SameHash(src, k, j)
    ensures Collapsed(src, s, n) != [] && Collapsed(src, s, n)[0] == BlockEntry(src, s)
    decreases n - s
  {
    hide Hash;
    if j == s {
      k := s;
    } else {
      k := BlockIsIndexed(src, s + 1, n, j);
      var e, more := BlockEntry(src, s), Collapsed(src, s + 1, n);
      if more[0].val == e.val && BlockEntry(src, k) == more[0] {
        k := s;
      } else {
        assert BlockEntry(src, k) in Collapsed(src, s, n) by {
          if more[0].val == e.val {
            assert more == [more[0]] + more[1..];
          }
        }
      }
    }
  }

  lemma {:induction false} BucketAscends(entries: seq<IndexEntry>, k: nat, mask: bv32)
    requires Ascending(entries)
    ensures Ascending(InBucket(entries, k, mask)) && forall e :: e in InBucket(entries, k, mask) ==> e in entries
  {
    hide Bucket, Ascending;
    if entries != [] {
      Behind(entries, 1);
      BucketAscends(entries[1..], k, mask);
      InFront(entries[0], InBucket(entries[1..], k, mask));
    } else {
      assert Ascending(InBucket(entries, k, mask));
    }
  }

  lemma {:induction false} Behind(chain: seq<IndexEntry>, n: nat)
    requires Ascending(chain) && 0 < n <= |chain|
    ensures Ascending(chain[n..]) && forall e :: e in chain[n..] ==> chain[0].at < e.at
  {
    if n > 1 {
      Behind(chain[1..], n - 1);
      assert chain[1..][n - 1..] == chain[n..];
    }
  }

  lemma InFront(e: IndexEntry, chain: seq<IndexEntry>)
    requires Ascending(chain) && forall x :: x in chain ==> e.at < x.at
    ensures Ascending([e] + chain) && [] + chain == chain
  {
    assert ([e] + chain)[1..] == chain;
  }

  lemma {:induction false} ThinAscends(chain: seq<IndexEntry>, skip: nat)
    requires Ascending(chain)
    ensures Ascending(Thin(chain, skip))
    decreases |chain|
  {
    hide Ascending;
    if chain != [] {
      var rest := chain[Stride(skip, |chain|)..];
      Behind(chain, Stride(skip, |chain|));
      ThinnedIsPart(rest, skip);
      ThinAscends(rest, skip);
      InFront(chain[0], Thin(rest, skip));
    }
  }

  // ----- culling

  // How far the culling loop moves: skip entries, or to the end when skip is zero.
  function Stride(skip: nat, n: nat): nat {
    if skip == 0 || n < skip then n else skip
  }

  // What the culling loop keeps of a chain.
  function Thin(chain: seq<IndexEntry>, skip: nat): seq<IndexEntry>
    decreases |chain|
  {
    if chain == [] then [] else [chain[0]] + Thin(chain[Stride(skip, |chain|)..], skip)
  }

  // What culling leaves of a bucket.
  function Culled(chain: seq<IndexEntry>): seq<IndexEntry> {
    if |chain| < HASH_LIMIT then chain else Thin(chain, |chain| / HASH_LIMIT / 2)
  }

  // The entries of a bucket that is too long which stay linked: every skip-th one.
  method Keep(chain: seq<IndexEntry>) returns (kept: seq<IndexEntry>)
    requires |chain| >= HASH_LIMIT
    ensures kept == Culled(chain)
  {
    hide Thin, Stride;
    var pos: nat := 0;
    ghost var stride := |chain| / HASH_LIMIT / 2;
    kept := [];
    assert chain[0..] == chain;
    NothingThin();
    while pos < |chain|
      invariant pos <= |chain| && kept + Thin(chain[pos..], stride) == Thin(chain, stride)
    {
      ThinStep(kept, chain, pos, stride);
      kept := kept + [chain[pos]];
      pos := SkipSome(|chain|, pos, |chain| / HASH_LIMIT / 2);
    }
    assert chain[pos..] == [];
  }

  lemma NothingThin()
    ensures forall stride :: Thin([], stride) == []
  {}

  // The inner loop: the count is taken down before it is looked at.
  method SkipSome(n: nat, from: nat, stride: nat) returns (pos: nat)
    requires from < n
    ensures pos == from + Stride(stride, n - from)
  {
    var skip: int := stride - 1;
    pos := from + 1;
    while skip != 0 && pos < n
      invariant from < pos <= n && pos - from + skip == stride
      invariant stride > 0 <==> skip >= 0
      decreases n - pos
    {
      pos, skip := pos + 1, skip - 1;
    }
  }

  lemma ThinStep(kept: seq<IndexEntry>, chain: seq<IndexEntry>, pos: nat, skip: nat)
    requires pos < |chain|
    ensures var next := pos + Stride(skip, |chain| - pos);
            next <= |chain| && kept + Thin(chain[pos..], skip) == kept + [chain[pos]] + Thin(chain[next..], skip)
  {
    var rest, next := chain[pos..], pos + Stride(skip, |chain| - pos);
    assert rest[Stride(skip, |rest|)..] == chain[next..];
    assert kept + ([chain[pos]] + Thin(chain[next..], skip)) == kept + [chain[pos]] + Thin(chain[next..], skip);
  }

  lemma {:induction false} ThinnedIsPart(chain: seq<IndexEntry>, skip: nat)
    ensures forall e :: e in Thin(chain, skip) ==> e in chain
    decreases |chain|
  {
    if chain != [] {
      ThinnedIsPart(chain[Stride(skip, |chain|)..], skip);
    }
  }

  lemma OneMore(n: nat, skip: nat)
    ensures (n + 1) * skip == n * skip + skip
  {}

  lemma NotFewer(n: nat, skip: nat, kept: nat)
    requires 0 < skip && 128 * skip <= n <= kept * skip
    ensures 128 <= kept
  {
    if kept < 128 {
      MulMonotone(kept, 127, skip);
    }
  }

  lemma MulMonotone(a: nat, b: nat, c: nat)
    requires a <= b
    ensures a * c <= b * c
  {}

  // One entry out of skip is kept.
  lemma {:induction false} ThinLength(chain: seq<IndexEntry>, skip: nat)
    requires 0 < skip
    ensures |chain| <= |Thin(chain, skip)| * skip < |chain| + skip
    decreases |chain|
  {
    if |chain| > skip {
      ThinLength(chain[skip..], skip);
      OneMore(|Thin(chain[skip..], skip)|, skip);
    } else if chain != [] {
      assert chain[Stride(skip, |chain|)..] == [];
    }
  }

  // The j-th entry kept is the one at j * skip: the chain is thinned evenly.
  lemma {:induction false} ThinAt(chain: seq<IndexEntry>, skip: nat, j: nat)
    requires 0 < skip && j < |Thin(chain, skip)|
    ensures 0 <= j * skip < |chain| && Thin(chain, skip)[j] == chain[j * skip]
    decreases |chain|
  {
    if j > 0 {
      var step := Stride(skip, |chain|);
      ThinAt(chain[step..], skip, j - 1);
      OneMore(j - 1, skip);
    }
  }

  // The comment above the culling loop wants at most HASH_LIMIT entries in a bucket. The stride
  // is zero below 2 * HASH_LIMIT entries, which leaves one entry, and too small from there on.
  lemma CullingBound(chain: seq<IndexEntry>)
    requires HASH_LIMIT <= |chain|
    ensures |Thin(chain, |chain| / HASH_LIMIT / 2)| <= HASH_LIMIT <==> |chain| < 2 * HASH_LIMIT
    ensures |chain| < 2 * HASH_LIMIT ==> Thin(chain, |chain| / HASH_LIMIT / 2) == [chain[0]]
  {
    var n, skip := |chain|, |chain| / HASH_LIMIT / 2;
    assert skip == 0 <==> n < 2 * HASH_LIMIT;
    assert 128 * skip <= n;
    if n < 2 * HASH_LIMIT {
      assert chain[Stride(skip, n)..] == [];
    } else {
      ThinLength(chain, skip);
      NotFewer(n, skip, |Thin(chain, skip)|);
    }
  }

  // The hash of the block that ends sixteen bytes after data.
  method BlockHash(t: Table, u: Table, src: bytes, data: int) returns (val: bv32)
    requires ValidTables(t, u) && -1 <= data && data + WINDOW < |src|
    ensures val == Hash(src[data + 1..data + WINDOW + 1]) && val != 0xffff_ffff
  {
    val := 0;
    for i := 1 to WINDOW + 1
      invariant val == Hash(src[data + 1..data + i]) && val < 0x8000_0000
    {
      val := TakeIn(t, u, val, src[data + i]);
      HashPush(src[data + 1..data + i], src[data + i]);
      assert src[data + 1..data + i] + [src[data + i]] == src[data + 1..data + i + 1];
    }
  }

  // Goes through the blocks of the source from the last to the first.
  method Fill(t: Table, u: Table, index: Index, entries: nat)
    requires ValidTables(t, u) && index.hash == map[] && entries * WINDOW < |index.src|
    modifies index`hash
    ensures index.Faithful()
    ensures forall k :: index.Chain(k) == InBucket(Collapsed(index.src, 0, entries), k, index.mask)
  {
    hide Hash, ValidTables, Bucket, Collapsed, BlockEntry, InBucket, Index.Faithful;
    var prev: bv32, last, data := 0xffff_ffff, 0, entries * WINDOW - WINDOW;
    ghost var j := entries;
    NothingIndexed(index, entries);
    while data >= 0
      invariant 0 <= j <= entries && data == j * WINDOW - WINDOW && index.Faithful()
      invariant forall k :: index.Chain(k) == InBucket(Collapsed(index.src, j, entries), k, index.mask)
      invariant prev == First(Collapsed(index.src, j, entries))
      invariant Collapsed(index.src, j, entries) != [] ==> last == Bucket(prev, index.mask)
      decreases data
    {
      j := j - 1;
      var val := BlockHash(t, u, index.src, data);
      var at := data + WINDOW;
      BlockIndexed(index.src, j, entries, index.mask, val);
      EntryBelongs(index, j, at, val);
      if val == prev {
        LastIndexed(index, Collapsed(index.src, j + 1, entries));
        index.Lower(last, at);
      } else {
        prev := val;
        last := Bucket(val, index.mask);
        index.Add(IndexEntry(at, val), last);
      }
      data := data - WINDOW;
    }
  }

  // The value of prev_val.
  ghost function First(entries: seq<IndexEntry>): bv32 {
    if entries == [] then 0xffff_ffff else entries[0].val
  }

  lemma NothingIndexed(index: Index, entries: nat)
    requires index.hash == map[] && entries * WINDOW < |index.src|
    ensures index.Faithful() && Collapsed(index.src, entries, entries) == []
    ensures forall k :: index.Chain(k) == InBucket([], k, index.mask)
  {}

  // A bucket with one more block: in front, or in the place of the one behind it with the same hash.
  function WithBlock(bucket: seq<IndexEntry>, e: IndexEntry, same: bool): seq<IndexEntry> {
    [e] + if same && bucket != [] then bucket[1..] else bucket
  }

  // What one more block does to the buckets.
  lemma BlockIndexed(src: bytes, j: nat, n: nat, mask: bv32, val: bv32)
    requires j < n && n * WINDOW < |src|
    requires val == Hash(src[j * WINDOW + 1..j * WINDOW + WINDOW + 1]) && val != 0xffff_ffff
    ensures var new_ := Collapsed(src, j, n); new_ != [] && First(new_) == val
    ensures var old_, new_, e := Collapsed(src, j + 1, n), Collapsed(src, j, n), IndexEntry(j * WINDOW + WINDOW, val);
            && (val == First(old_) ==> old_ != [])
            && forall k :: InBucket(new_, k, mask) ==
                 if k == Bucket(val, mask) then WithBlock(InBucket(old_, k, mask), e, val == First(old_))
                 else InBucket(old_, k, mask)
  {
    hide Hash, Bucket;
    var old_, new_, e := Collapsed(src, j + 1, n), Collapsed(src, j, n), IndexEntry(j * WINDOW + WINDOW, val);
    forall k
      ensures InBucket(new_, k, mask) ==
              if k == Bucket(val, mask) then WithBlock(InBucket(old_, k, mask), e, val == First(old_))
              else InBucket(old_, k, mask)
    {
      assert new_[1..] == if val == First(old_) then old_[1..] else old_;
    }
  }

  lemma EntryBelongs(index: Index, j: nat, at: nat, val: bv32)
    requires at == j * WINDOW + WINDOW < |index.src|
    requires val == Hash(index.src[j * WINDOW + 1..j * WINDOW + WINDOW + 1])
    ensures index.Belongs(IndexEntry(at, val), Bucket(val, index.mask))
  {
    hide Hash, Bucket;
  }

  // The newest entry is at the front of its bucket.
  lemma LastIndexed(index: Index, entries: seq<IndexEntry>)
    requires entries != []
    ensures var k := Bucket(entries[0].val, index.mask);
            InBucket(entries, k, index.mask) != [] && InBucket(entries, k, index.mask)[0] == entries[0]
  {}

  // How many blocks are indexed.
  function BlockCount(size: nat): nat
    requires size > 0
  {
    if size >= 0xffff_ffff then 0xffff_fffe / WINDOW else (size - 1) / WINDOW
  }

  // The bucket k of the index of src.
  ghost function BucketOf(src: bytes, k: nat, mask: bv32): seq<IndexEntry>
    requires src != []
  {
    Culled(InBucket(Collapsed(src, 0, BlockCount(|src|)), k, mask))
  }

  lemma BucketOfAscends(src: bytes, k: nat, mask: bv32)
    requires src != []
    ensures Ascending(BucketOf(src, k, mask))
  {
    hide Collapsed, InBucket, Ascending, Thin;
    var entries := Collapsed(src, 0, BlockCount(|src|));
    var chain := InBucket(entries, k, mask);
    CollapsedAscends(src, 0, BlockCount(|src|));
    BucketAscends(entries, k, mask);
    ThinAscends(chain, |chain| / HASH_LIMIT / 2);
  }

  // A source of at most one window has no blocks: its first byte is not indexed.
  lemma ShortSource(src: bytes, k: nat, mask: bv32)
    ensures 0 < |src| <= WINDOW ==> BucketOf(src, k, mask) == []
  {
    hide Hash, Bucket;
    if 0 < |src| <= WINDOW {
      assert BlockCount(|src|) == 0 && Collapsed(src, 0, 0) == [] && InBucket([], k, mask) == [];
    }
  }

  // git_delta_index_init
  method IndexInit(t: Table, u: Table, src: bytes) returns (r: Index?)
    requires ValidTables(t, u)
    ensures r == null <==> src == []
    ensures r != null ==> r.src == src && r.Faithful() && r.InBase() && r.Ordered()
    ensures r != null ==> forall k :: r.Chain(k) == BucketOf(src, k, r.mask)
    ensures r != null && |src| <= WINDOW ==> r.IsEmpty()
  {
    hide Hash, ValidTables, Collapsed, InBucket, Culled, Ascending;
    if src == [] {
      return null;
    }
    var entries := BlockCount(|src|);
    var size, shift := 16, 4;
    while shift < 31 && size < entries / 4
      invariant 4 <= shift <= 31
    {
      size, shift := size * 2, shift + 1;
    }
    var index := new Index(src, ((1 as bv32) << shift) - 1);
    Fill(t, u, index, entries);
    index.CullAll();
    forall k ensures Ascending(index.Chain(k)) {
      BucketOfAscends(src, k, index.mask);
    }
    forall k ensures |src| <= WINDOW ==> index.Chain(k) == [] {
      ShortSource(src, k, index.mask);
    }
    r := index;
  }

  // ----- a source with a bucket that culling leaves too long

  // Every other block ends in a one, and all other bytes are zero.
  function LongSource(): (s: bytes)
    ensures |s| == 4097
  {
    seq(4097, i => if i % 32 == 16 then 1 else 0)
  }

  lemma {:induction false} HashOfZeros(bs: bytes)
    requires forall i :: 0 <= i < |bs| ==> bs[i] == 0
    ensures Hash(bs) == 0
  {
    hide Twice, Xor;
    if bs != [] {
      GF2Laws();
      HashOfZeros(bs[..|bs| - 1]);
      GF2.TimesZero(8);
      NothingAdded(0);
    }
  }

  lemma HashOfLast(bs: bytes)
    requires bs != [] && bs[|bs| - 1] <= 1 && forall i :: 0 <= i < |bs| - 1 ==> bs[i] == 0
    ensures Hash(bs) == if bs[|bs| - 1] == 0 then 0 else 1
  {
    hide Twice, Xor;
    GF2Laws();
    HashOfZeros(bs[..|bs| - 1]);
    GF2.TimesZero(8);
    NothingAdded(0);
    NothingAdded(1);
    assert GF2.Scale(0, 1) == 0 && GF2.Scale(1, 1) == GF2.add(Twice(0), 1);
    GF2.TwiceZero();
  }

  lemma LongBlock(j: nat)
    requires (j + 1) * WINDOW < |LongSource()|
    ensures BlockEntry(LongSource(), j).val == if j % 2 == 0 then 1 else 0
  {
    hide Hash;
    var block := LongSource()[j * WINDOW + 1..j * WINDOW + WINDOW + 1];
    assert forall i :: 0 <= i < WINDOW ==> block[i] == if (j * WINDOW + 1 + i) % 32 == 16 then 1 else 0;
    forall i | 0 <= i < WINDOW ensures block[i] == if i == WINDOW - 1 && j % 2 == 0 then 1 else 0 {
      BlockPlace(j, i);
    }
    HashOfLast(block);
  }

  lemma BlockPlace(j: nat, i: nat)
    requires i < WINDOW
    ensures (j * WINDOW + 1 + i) % 32 == 16 <==> i == WINDOW - 1 && j % 2 == 0
  {
    var q, r := j / 2, j % 2;
    assert j * WINDOW + 1 + i == 32 * q + (16 * r + 1 + i);
  }

  lemma {:induction false} LongCollapsed(j: nat, mask: bv32)
    requires j <= 256
    ensures var es := Collapsed(LongSource(), j, 256);
            && |es| == 256 - j
            && (j < 256 ==> es[0].val == if j % 2 == 0 then 1 else 0)
            && |InBucket(es, Bucket(1, mask), mask)| >= (256 - j) / 2
    decreases 256 - j
  {
    hide Hash, Bucket, BlockEntry, InBucket, LongSource;
    LongSourceLength();
    if j < 256 {
      LongCollapsed(j + 1, mask);
      LongBlock(j);
      var es := Collapsed(LongSource(), j, 256);
      assert es[1..] == Collapsed(LongSource(), j + 1, 256);
      InBucketFirst(es, Bucket(1, mask), mask);
    }
  }

  lemma LongSourceLength()
    ensures |LongSource()| == 4097
  {}

  lemma InBucketFirst(entries: seq<IndexEntry>, k: nat, mask: bv32)
    requires entries != []
    ensures |InBucket(entries, k, mask)| ==
      (if Bucket(entries[0].val, mask) == k then 1 else 0) + |InBucket(entries[1..], k, mask)|
  {}

  // Whatever the mask, more than HASH_LIMIT entries of this source stay in one bucket.
  lemma LongBucket(mask: bv32)
    ensures |BucketOf(LongSource(), Bucket(1, mask), mask)| > HASH_LIMIT
  {
    hide Thin, InBucket, Collapsed, Bucket;
    LongCollapsed(0, mask);
    assert BlockCount(|LongSource()|) == 256;
    CullingBound(InBucket(Collapsed(LongSource(), 0, 256), Bucket(1, mask), mask));
  }
}
