// delta.h: the index, the encoder and the tables of delta.c put together.

module GitDelta {
  import opened Bytes
  import opened DeltaFormat
  import opened RollingHash
  import opened DeltaIndex
  import opened DeltaPlaces
  import opened DeltaLengths
  import opened DeltaEncoder
  import DeltaDecoder
  import RabinHash
  import RabinTables

  // The delta is made, with this length, unless the encoder comes too far.
  predicate Decides(r: Result, maxSize: nat, peak: nat, end: nat) {
    if peak < TooFar(maxSize) then r.Delta? && |r.out| == end
    else if IsLarge(maxSize) then r == Wrapped
    else r == TooBig
  }

  // What the encoder makes of a target, with the index of its base.
  lemma Lengths(ix: Blocks, trg: bytes)
    requires ix.src != [] && forall k :: ix.Chain(k) == BucketOf(ix.src, k, ix.mask)
    ensures var p := Origin(ix.src, trg);
      && (trg == ix.src ==> End(ix, trg, p) == Peak(ix, trg, p) == SelfLength(ix.src))
      && (Apart(ix.src, trg) || |ix.src| <= WINDOW ==> End(ix, trg, p) == Peak(ix, trg, p) == LiteralEnd(ix.src, trg))
      && (forall n: nat :: StartsAlike(ix.src, trg, n) ==> Peak(ix, trg, p) <= PrefixLength(ix.src, trg, n))
      && (forall m: nat :: ApartFrom(ix.src, trg, m) ==> |trg| <= Peak(ix, trg, p) + m)
  {
    hide Apart, ApartFrom, BucketOf, FirstIsIndexed, End, Peak, SelfLength, LiteralEnd, PrefixLength;
    IndexHasFirst(ix);
    if trg == ix.src {
      SameFile(ix);
    }
    if Apart(ix.src, trg) || |ix.src| <= WINDOW {
      forall k ensures |ix.src| <= WINDOW ==> ix.Chain(k) == [] {
        ShortSource(ix.src, k, ix.mask);
      }
      ApartIsInserted(ix, trg);
    }
    forall n: nat | StartsAlike(ix.src, trg, n)
      ensures Peak(ix, trg, Origin(ix.src, trg)) <= PrefixLength(ix.src, trg, n)
    {
      PrefixIsShort(ix, trg, n);
    }
    forall m: nat | ApartFrom(ix.src, trg, m) ensures |trg| <= Peak(ix, trg, Origin(ix.src, trg)) + m {
      NewIsWritten(ix, trg, m);
    }
  }

  // Base and target have the same first n bytes, enough of them for a match.
  predicate StartsAlike(base: bytes, trg: bytes, n: nat) {
    20 <= n <= |base| && n <= |trg| && trg[..n] == base[..n]
  }

  // git_delta
  method Diff(src: bytes, trg: bytes, maxSize: nat) returns (r: Result, ghost ix: Blocks)
    requires |src| <= 0x8000_0000 && |trg| < WORD
    ensures r.Nothing? <==> src == [] || trg == []
    ensures src != [] ==> ix.src == src && forall k :: ix.Chain(k) == BucketOf(src, k, ix.mask)
    ensures src != [] && trg != [] ==>
      Decides(r, maxSize, Peak(ix, trg, Origin(src, trg)), End(ix, trg, Origin(src, trg)))
    ensures r.Delta? ==> Apply(src, r.out) == Applied(trg)
    ensures r.Delta? ==> |r.out| <= Bound(|trg|) && (maxSize > 0 ==> |r.out| <= maxSize)
    ensures r.Wrapped? ==> |trg| >= 981_765_080
  {
    hide RabinHash.ValidTables, Apply, Peak, End, BucketOf;
    RabinTables.GitTablesAreValid();
    var index := IndexInit(RabinTables.T, RabinTables.U, src);
    if index == null {
      ix := Blocks(src, 0, map[]);
      return Nothing, ix;
    }
    ix := index.View();
    EndIsBelowPeak(ix, trg, Origin(src, trg));
    r := CreateFromIndex(RabinTables.T, RabinTables.U, index, trg, maxSize);
  }

  // What that means for a target of which more is known than that it is a target.
  method DiffLength(src: bytes, trg: bytes, maxSize: nat) returns (r: Result)
    requires 0 < |src| <= 0x8000_0000 && 0 < |trg| < WORD
    ensures r.Delta? ==> Apply(src, r.out) == Applied(trg)
    ensures trg == src ==> Decides(r, maxSize, SelfLength(src), SelfLength(src))
    ensures Apart(src, trg) || |src| <= WINDOW ==>
      Decides(r, maxSize, LiteralEnd(src, trg), LiteralEnd(src, trg))
    ensures forall n: nat :: StartsAlike(src, trg, n) && PrefixLength(src, trg, n) < TooFar(maxSize) ==>
      r.Delta? && |r.out| <= PrefixLength(src, trg, n)
    ensures forall m: nat :: ApartFrom(src, trg, m) && |trg| >= m + TooFar(maxSize) ==> !r.Delta?
  {
    hide Apart, ApartFrom, Apply, BucketOf, End, Peak, SelfLength, LiteralEnd, PrefixLength;
    ghost var ix;
    r, ix := Diff(src, trg, maxSize);
    Lengths(ix, trg);
    EndIsBelowPeak(ix, trg, Origin(src, trg));
  }

  // A limit that is large enough for the delta of a file against itself is never in the way.
  method DiffOfSame(src: bytes, maxSize: nat) returns (out: bytes)
    requires 0 < |src| <= 0x8000_0000 && (maxSize == 0 || maxSize >= SelfLength(src))
    ensures Apply(src, out) == Applied(src) && |out| == SelfLength(src)
  {
    hide Apply, SelfLength, Apart, ApartFrom, LiteralEnd, PrefixLength;
    SelfIsShort(src);
    var r := DiffLength(src, src, maxSize);
    out := r.out;
  }

  // A limit is in the way when the encoder passes it, and not only when the delta would be longer: with a limit that
  // the whole delta is within this target is refused.
  method RefusedThoughShort(maxSize: nat) returns (r: Result, whole: Result)
    requires |HeaderBytes(LateBase(), LateTarget())| + 20 <= maxSize < |HeaderBytes(LateBase(), LateTarget())| + 32
    ensures r == TooBig && whole.Delta? && |whole.out| <= maxSize
  {
    hide Apply, Peak, End, BucketOf, HeaderBytes;
    HeaderFits(LateBase(), LateTarget());
    ghost var ix, ix';
    r, ix := Diff(LateBase(), LateTarget(), maxSize);
    EndsBeforePeak(ix);
    whole, ix' := Diff(LateBase(), LateTarget(), 0);
    EndsBeforePeak(ix');
  }

  lemma HeaderFits(base: bytes, trg: bytes)
    requires |base| < WORD && |trg| < WORD
    ensures |HeaderBytes(base, trg)| <= 10
  {
    hide SizeBytes;
    SizeBytesLength(|base|);
    SizeBytesLength(|trg|);
  }

  // git_delta followed by git_delta_apply, without a limit: the target comes back whenever the size
  // of the buffer does not wrap, and so for every target below 981765080 bytes.
  method DiffAndApply(src: bytes, trg: bytes) returns (wraps: bool, r: Outcome)
    requires 0 < |src| <= 0x8000_0000 && 0 < |trg| < WORD
    ensures !wraps ==> r == Applied(trg)
    ensures wraps ==> |trg| >= 981_765_080
    ensures |src| <= WINDOW ==> (wraps <==> |trg| >= TOO_LONG)
  {
    hide Apply, LiteralEnd, Peak, End, BucketOf, Apart;
    ghost var ix;
    var d;
    d, ix := Diff(src, trg, 0);
    Lengths(ix, trg);
    if |src| <= WINDOW {
      TooLong(src, trg);
    }
    wraps, r := d.Wrapped?, Rejected;
    if !wraps {
      r := DeltaDecoder.ApplyDelta(src, d.out);
    }
  }

  // ----- targets for which the size wraps

  // The length from which a target that is all literals is too long, with a short base.
  const TOO_LONG := 1_558_552_067

  lemma TooLong(base: bytes, trg: bytes)
    requires |base| <= WINDOW && |trg| < WORD
    ensures LiteralEnd(base, trg) >= TOO_FULL <==> |trg| >= TOO_LONG
  {
    hide SizeBytes;
    SizeBytesLength(|base|);
    SizeBytesLength(|trg|);
  }

  // Inputs of which the first part is found in the index, and for which the size wraps.
  lemma MatchesAndWraps(base: bytes)
    requires 0 !in base && |base| <= 0x8000_0000
    ensures var trg := BaseAndZeros(base, TOO_FULL);
      && Match(base, trg, 0, 0, |base|)
      && |trg| < WORD && ApartFrom(base, trg, |base|) && |trg| >= |base| + TooFar(0)
  {
    ZerosAreApart(base, TOO_FULL);
    assert BaseAndZeros(base, TOO_FULL)[..|base|] == base;
  }
}
