// The line ending filter: crlf.c, and the conversions of buf_text.c.

module LineEndings {
  import opened CStrings

  const CR := '\r'
  const LF := '\n'
  const EOF_CHAR := 0x1a as char

  // ----- the conversions

  predicate StartsPair(s: string) {
    |s| > 1 && s[0] == CR && s[1] == LF
  }

  // git_buf_text_crlf_to_lf: a carriage return in front of a newline is dropped.
  function ToLf(s: string): string {
    if s == "" then "" else if StartsPair(s) then ToLf(s[1..]) else [s[0]] + ToLf(s[1..])
  }

  // git_buf_text_lf_to_crlf: a newline without a carriage return gets one.
  function ToCrlf(s: string): string {
    if s == "" then ""
    else if StartsPair(s) then [CR, LF] + ToCrlf(s[2..])
    else if s[0] == LF then [CR, LF] + ToCrlf(s[1..])
    else [s[0]] + ToCrlf(s[1..])
  }

  predicate HasPair(s: string) {
    exists i :: 0 <= i < |s| - 1 && s[i] == CR && s[i + 1] == LF
  }

  // ----- what git_buf_text_gather_stats counts

  datatype Stats = Stats(nul: nat, cr: nat, lf: nat, crlf: nat, printable: nat, nonprintable: nat)

  const NO_STATS := Stats(0, 0, 0, 0, 0, 0)

  // The count for one character; paired says that a newline follows.
  function Count(c: char, paired: bool): Stats {
    if c > 0x1f as char && c != 0x7f as char then NO_STATS.(printable := 1)
    else if c == '\0' then NO_STATS.(nul := 1, nonprintable := 1)
    else if c == LF then NO_STATS.(lf := 1)
    else if c == CR then NO_STATS.(cr := 1, crlf := if paired then 1 else 0)
    else if c == '\t' || c == 12 as char || c == 11 as char || c == 8 as char || c == 0x1b as char then
      NO_STATS.(printable := 1)
    else NO_STATS.(nonprintable := 1)
  }

  function Add(a: Stats, b: Stats): Stats {
    Stats(a.nul + b.nul, a.cr + b.cr, a.lf + b.lf, a.crlf + b.crlf, a.printable + b.printable,
          a.nonprintable + b.nonprintable)
  }

  function CountAll(s: string): Stats {
    if s == "" then NO_STATS else Add(Count(s[0], |s| > 1 && s[1] == LF), CountAll(s[1..]))
  }

  // A DOS end of file character at the end does not count.
  function WithoutEof(s: string): string {
    if s != "" && s[|s| - 1] == EOF_CHAR then s[..|s| - 1] else s
  }

  function GatheredStats(s: string): Stats {
    CountAll(WithoutEof(s))
  }

  // What git_buf_text_gather_stats returns.
  predicate LooksBinary(t: Stats) {
    t.nul > 0 || t.printable / 128 < t.nonprintable
  }

  // ----- the filter

  datatype Action = Guess | Binary | Text | Input | Crlf | Auto

  datatype Eol = EolUnset | EolLf | EolCrlf

  datatype AutoCrlf = AutoFalse | AutoTrue | AutoInput

  datatype SafeCrlf = SafeFalse | SafeFail | SafeWarn

  datatype Attrs = Attrs(action: Action, eol: Eol, auto: AutoCrlf, safe: SafeCrlf)

  // Same: the content is passed through, or is empty. Refused: an error.
  datatype Filtered = Same | Changed(content: string) | Refused

  function Content(f: Filtered, from: string): string {
    if f.Changed? then f.content else from
  }

  // line_ending. crlfIsNative is what the platform uses.
  function LineEnding(ca: Attrs, crlfIsNative: bool): Eol {
    match ca.action
    case Binary => EolLf
    case Input => EolLf
    case Crlf => EolCrlf
    case _ =>
      if ca.action == Guess && ca.auto == AutoFalse then EolLf
      else if ca.auto == AutoTrue then EolCrlf
      else if ca.auto == AutoInput then EolLf
      else if ca.eol == EolUnset then (if crlfIsNative then EolCrlf else EolLf)
      else ca.eol
  }

  // crlf_apply_to_odb. crInIndex is what has_cr_in_index says.
  function Clean(ca: Attrs, from: string, crInIndex: bool): Filtered {
    var t := GatheredStats(from);
    if from == "" then Same
    else if ca.action == Auto || ca.action == Guess then
      if LooksBinary(t) then Same
      else if t.cr == 0 then Same
      else if (t.cr != t.crlf || t.lf != t.crlf) && ca.safe == SafeFail then Refused
      else if t.cr != t.crlf then Same
      else if ca.action == Guess && crInIndex then Same
      else Changed(ToLf(from))
    else Changed(ToLf(from))
  }

  // crlf_apply_to_workdir
  function Smudge(ca: Attrs, from: string, crlfIsNative: bool): Filtered {
    var t := GatheredStats(from);
    if from == "" then Same
    else if LineEnding(ca, crlfIsNative) != EolCrlf then Same
    else if t.lf == 0 || t.lf == t.crlf then Same
    else if (ca.action == Auto || ca.action == Guess)
            && ((ca.action == Guess && t.cr > 0 && t.crlf > 0) || t.cr != t.crlf || LooksBinary(t)) then Same
    else Changed(ToCrlf(from))
  }

  // ----- the conversions undo each other

  lemma {:induction false} NoPairTail(s: string)
    requires s != ""
    ensures HasPair(s) <==> StartsPair(s) || HasPair(s[1..])
  {
    var t := s[1..];
    if HasPair(s) && !StartsPair(s) {
      var i :| 0 <= i < |s| - 1 && s[i] == CR && s[i + 1] == LF;
      assert t[i - 1] == CR && t[i - 1 + 1] == LF;
    }
    if HasPair(t) {
      var i :| 0 <= i < |t| - 1 && t[i] == CR && t[i + 1] == LF;
      assert s[i + 1] == CR && s[i + 1 + 1] == LF;
    }
  }

  lemma {:induction false} ToLfShrinks(s: string)
    ensures |ToLf(s)| <= |s|
    ensures ToLf(s) == s <==> !HasPair(s)
  {
    if s != "" {
      NoPairTail(s);
      ToLfShrinks(s[1..]);
      if StartsPair(s) {
        assert |ToLf(s)| < |s|;
      } else {
        assert s == [s[0]] + s[1..];
        assert ToLf(s)[1..] == ToLf(s[1..]);
      }
    }
  }

  // What ToCrlf makes never starts with a newline.
  lemma CrlfStarts(s: string)
    ensures ToCrlf(s) != "" ==> ToCrlf(s)[0] != LF
    ensures s != "" && s[0] != LF ==> ToCrlf(s) != "" && ToCrlf(s)[0] == s[0]
  {}

  lemma {:induction false} LfAfterCrlf(s: string)
    ensures ToLf(ToCrlf(s)) == ToLf(s)
    decreases |s|
  {
    if s == "" {
    } else if StartsPair(s) {
      LfAfterCrlf(s[2..]);
      CrlfLfStep(ToCrlf(s[2..]));
      assert s[1..][1..] == s[2..];
    } else if s[0] == LF {
      LfAfterCrlf(s[1..]);
      CrlfLfStep(ToCrlf(s[1..]));
    } else {
      LfAfterCrlf(s[1..]);
      CrlfStarts(s[1..]);
      var t := [s[0]] + ToCrlf(s[1..]);
      assert t[1..] == ToCrlf(s[1..]) && !StartsPair(t);
    }
  }

  lemma CrlfLfStep(t: string)
    ensures ToLf([CR, LF] + t) == [LF] + ToLf(t)
  {
    var u := [CR, LF] + t;
    assert u[1..] == [LF] + t && ([LF] + t)[1..] == t;
  }

  // Converting twice is converting once.
  lemma {:induction false} CrlfTwice(s: string)
    ensures ToCrlf(ToCrlf(s)) == ToCrlf(s)
    decreases |s|
  {
    if s == "" {
    } else if StartsPair(s) {
      CrlfTwice(s[2..]);
      assert ToCrlf(s)[2..] == ToCrlf(s[2..]);
    } else if s[0] == LF {
      CrlfTwice(s[1..]);
      assert ToCrlf(s)[2..] == ToCrlf(s[1..]);
    } else {
      CrlfTwice(s[1..]);
      CrlfStarts(s[1..]);
      var t := ToCrlf(s);
      assert t[1..] == ToCrlf(s[1..]) && !StartsPair(t);
    }
  }

  // ----- what the conversion does to the counts

  lemma CountKinds(c: char, paired: bool)
    ensures c == CR ==> Count(c, paired) == NO_STATS.(cr := 1, crlf := if paired then 1 else 0)
    ensures c == LF ==> Count(c, paired) == NO_STATS.(lf := 1)
    ensures c != CR && c != LF ==>
      var t := Count(c, paired); t.cr == 0 && t.lf == 0 && t.crlf == 0 && t == Count(c, false)
  {}

  lemma CountTail(s: string)
    requires s != ""
    ensures CountAll(s) == Add(Count(s[0], |s| > 1 && s[1] == LF), CountAll(s[1..]))
  {
    hide Count, Add;
  }

  lemma CountPair(s: string)
    ensures CountAll([CR, LF] + s) == Add(NO_STATS.(cr := 1, lf := 1, crlf := 1), CountAll(s))
  {
    hide Count, CountAll;
    var t := [CR, LF] + s;
    assert t[1..] == [LF] + s && ([LF] + s)[1..] == s;
    CountTail(t);
    CountTail([LF] + s);
    CountKinds(CR, true);
    CountKinds(LF, |s| > 0 && s[0] == LF);
    CountKinds(LF, |[LF] + s| > 1 && ([LF] + s)[1] == LF);
  }

  lemma {:induction false} PairsCounted(s: string)
    ensures var t := CountAll(s); (t.crlf > 0 <==> HasPair(s)) && t.crlf <= t.cr
    ensures var t := CountAll(s); t.crlf + (if s != "" && s[0] == LF then 1 else 0) <= t.lf
  {
    hide Count, HasPair;
    if s == "" {
      NoPairInNothing();
    } else {
      hide CountAll;
      NoPairTail(s);
      PairsCounted(s[1..]);
      CountTail(s);
      CountKinds(s[0], |s| > 1 && s[1] == LF);
    }
  }

  lemma NoPairInNothing()
    ensures !HasPair("")
  {}

  lemma NothingCounted()
    ensures CountAll("") == NO_STATS
  {}

  // Every newline has its carriage return, and nothing else is changed.
  function Converted(t: Stats): Stats
    requires t.crlf <= t.cr
  {
    t.(cr := t.cr - t.crlf + t.lf, crlf := t.lf)
  }

  lemma {:induction false} CrlfCounts(s: string)
    ensures CountAll(s).crlf <= CountAll(s).cr
    ensures CountAll(ToCrlf(s)) == Converted(CountAll(s))
    decreases |s|
  {
    hide Count, CountAll;
    PairsCounted(s);
    NothingCounted();
    if s == "" {
    } else if StartsPair(s) {
      CrlfCounts(s[2..]);
      CountPair(ToCrlf(s[2..]));
      CountPair(s[2..]);
      assert s == [CR, LF] + s[2..];
    } else if s[0] == LF {
      CrlfCounts(s[1..]);
      CountPair(ToCrlf(s[1..]));
      CountTail(s);
      CountKinds(LF, |s| > 1 && s[1] == LF);
    } else {
      CrlfCounts(s[1..]);
      OtherKept(s);
    }
  }

  lemma OtherKept(s: string)
    requires s != "" && !StartsPair(s) && s[0] != LF
    requires CountAll(s[1..]).crlf <= CountAll(s[1..]).cr && CountAll(ToCrlf(s[1..])) == Converted(CountAll(s[1..]))
    requires CountAll(s).crlf <= CountAll(s).cr
    ensures CountAll(ToCrlf(s)) == Converted(CountAll(s))
  {
    hide Count, CountAll;
    var t := ToCrlf(s);
    CrlfStarts(s[1..]);
    assert t[1..] == ToCrlf(s[1..]) && t[0] == s[0];
    CountTail(t);
    CountTail(s);
    CountKinds(s[0], |s| > 1 && s[1] == LF);
    CountKinds(s[0], |t| > 1 && t[1] == LF);
  }

  // The end of file character stays where it is.
  lemma {:induction false} EofKept(s: string, c: char)
    requires c != LF && c != CR
    ensures ToCrlf(s + [c]) == ToCrlf(s) + [c]
    decreases |s|
  {
    if s == "" {
      assert s + [c] == [c] && [c][1..] == "";
    } else if StartsPair(s) {
      EofKept(s[2..], c);
      assert (s + [c])[2..] == s[2..] + [c];
      assert [CR, LF] + (ToCrlf(s[2..]) + [c]) == [CR, LF] + ToCrlf(s[2..]) + [c];
    } else {
      EofKept(s[1..], c);
      assert (s + [c])[1..] == s[1..] + [c];
      var first := if s[0] == LF then [CR, LF] else [s[0]];
      assert first + (ToCrlf(s[1..]) + [c]) == first + ToCrlf(s[1..]) + [c];
    }
  }

  lemma {:induction false} LastKept(s: string)
    requires s != ""
    ensures ToCrlf(s) != "" && ToCrlf(s)[|ToCrlf(s)| - 1] == s[|s| - 1]
    decreases |s|
  {
    if StartsPair(s) {
      if |s| > 2 {
        LastKept(s[2..]);
      } else {
        assert s[2..] == "";
      }
    } else if |s| > 1 {
      LastKept(s[1..]);
    } else {
      assert s[1..] == "";
    }
  }

  lemma EofCommutes(s: string)
    ensures WithoutEof(ToCrlf(s)) == ToCrlf(WithoutEof(s))
  {
    if s != "" {
      LastKept(s);
      if s[|s| - 1] == EOF_CHAR {
        var front := s[..|s| - 1];
        assert s == front + [EOF_CHAR];
        EofKept(front, EOF_CHAR);
        assert (ToCrlf(front) + [EOF_CHAR])[..|ToCrlf(front)|] == ToCrlf(front);
      }
    }
  }

  lemma EofHasNoPair(s: string)
    ensures HasPair(WithoutEof(s)) <==> HasPair(s)
  {
    var t := WithoutEof(s);
    if HasPair(s) {
      var i :| 0 <= i < |s| - 1 && s[i] == CR && s[i + 1] == LF;
      assert t[i] == CR && t[i + 1] == LF;
    }
    if HasPair(t) {
      var i :| 0 <= i < |t| - 1 && t[i] == CR && t[i + 1] == LF;
      assert s[i] == CR && s[i + 1] == LF;
    }
  }

  // The statistics of a blob and of its converted form, and what both say of it.
  lemma StatsConverted(s: string)
    ensures var t := GatheredStats(s);
            && t.crlf <= t.cr && t.crlf <= t.lf && (t.crlf > 0 <==> HasPair(s))
            && GatheredStats(ToCrlf(s)) == Converted(t)
            && (LooksBinary(GatheredStats(ToCrlf(s))) <==> LooksBinary(t))
  {
    hide CountAll, ToCrlf, HasPair, WithoutEof;
    EofCommutes(s);
    EofHasNoPair(s);
    PairsCounted(WithoutEof(s));
    CrlfCounts(WithoutEof(s));
  }

  // ----- the round trip

  // The content of the working tree and of the object database.
  function Worked(ca: Attrs, blob: string, crlfIsNative: bool): string {
    Content(Smudge(ca, blob, crlfIsNative), blob)
  }

  predicate BareCr(s: string) {
    GatheredStats(s).cr != GatheredStats(s).crlf
  }

  lemma NoPairsMeanNoCrlf(s: string)
    ensures ToLf(ToCrlf(s)) == s <==> !HasPair(s)
    ensures ToLf(s) == s <==> !HasPair(s)
  {
    LfAfterCrlf(s);
    ToLfShrinks(s);
  }

  // AUTO and GUESS leave binary content and bare carriage returns alone, in both directions.
  predicate LeftAlone(ca: Attrs, blob: string) {
    (ca.action == Auto || ca.action == Guess) && (LooksBinary(GatheredStats(blob)) || BareCr(blob))
  }

  predicate HasNewline(s: string) {
    GatheredStats(s).lf > 0
  }

  // When cleaning gives the blob back. What has a CR-LF pair loses it, unless it is left alone or,
  // under GUESS, the index has a carriage return. What has none gets the pairs and loses them again,
  // unless, under GUESS, the index keeps them in.
  predicate ComesBack(ca: Attrs, blob: string, crlfIsNative: bool, crInIndex: bool) {
    || LeftAlone(ca, blob)
    || (if HasPair(blob) then ca.action == Guess && crInIndex
        else !(ca.action == Guess && crInIndex && LineEnding(ca, crlfIsNative) == EolCrlf && HasNewline(blob)))
  }

  // Every newline has its carriage return, and the other way round.
  predicate AllPaired(s: string) {
    GatheredStats(s).cr == GatheredStats(s).crlf == GatheredStats(s).lf
  }

  // When cleaning is refused: safecrlf is FAIL, and what was checked out has a carriage return and
  // is not all CR-LF. What is converted on the way out always is.
  predicate IsRefused(ca: Attrs, blob: string, crlfIsNative: bool) {
    && ca.safe == SafeFail && (ca.action == Auto || ca.action == Guess)
    && !LooksBinary(GatheredStats(blob)) && GatheredStats(blob).cr > 0 && !AllPaired(blob)
    && (BareCr(blob) || ca.action == Guess || LineEnding(ca, crlfIsNative) != EolCrlf)
  }

  // Cleaning undoes smudging, or is refused, in just these cases, for all attributes.
  lemma CleanUndoesSmudge(ca: Attrs, blob: string, crlfIsNative: bool, crInIndex: bool)
    ensures var work := Worked(ca, blob, crlfIsNative);
            var clean := Clean(ca, work, crInIndex);
            && (clean.Refused? <==> IsRefused(ca, blob, crlfIsNative))
            && (!clean.Refused? ==>
                  (Content(clean, work) == blob <==> ComesBack(ca, blob, crlfIsNative, crInIndex)))
  {
    hide ToLf, ToCrlf, HasPair, GatheredStats, LooksBinary, LineEnding;
    StatsConverted(blob);
    NoPairsMeanNoCrlf(blob);
    EmptyConverted(blob);
    EmptyStats();
  }

  // For AUTO, TEXT and CRLF and a CRLF working tree: a blob without pairs comes back.
  lemma NoPairsComeBack(ca: Attrs, blob: string, crlfIsNative: bool, crInIndex: bool)
    requires ca.action == Auto || ca.action == Text || ca.action == Crlf
    requires LineEnding(ca, crlfIsNative) == EolCrlf && ca.safe != SafeFail && !HasPair(blob)
    ensures var work := Worked(ca, blob, crlfIsNative);
            !Clean(ca, work, crInIndex).Refused? && Content(Clean(ca, work, crInIndex), work) == blob
  {
    hide Clean, Worked, Content, HasPair, LineEnding;
    CleanUndoesSmudge(ca, blob, crlfIsNative, crInIndex);
  }

  lemma EmptyStats()
    ensures GatheredStats("") == NO_STATS
  {}

  lemma EmptyConverted(s: string)
    ensures s == "" ==> !HasPair(s) && ToLf(s) == s && ToCrlf(s) == s
    ensures s != "" ==> ToCrlf(s) != ""
  {}

  // The check for binary content gives the same answer for a blob and for what is checked out.
  lemma SameHeuristic(ca: Attrs, blob: string, crlfIsNative: bool)
    ensures LooksBinary(GatheredStats(Worked(ca, blob, crlfIsNative))) <==> LooksBinary(GatheredStats(blob))
  {
    hide GatheredStats, LooksBinary, LineEnding, ToCrlf, HasPair;
    StatsConverted(blob);
  }

  // Checking out again, over what was checked out, changes nothing.
  lemma SmudgeTwice(ca: Attrs, blob: string, crlfIsNative: bool)
    ensures Worked(ca, Worked(ca, blob, crlfIsNative), crlfIsNative) == Worked(ca, blob, crlfIsNative)
  {
    hide GatheredStats, LooksBinary, LineEnding, ToCrlf, HasPair;
    StatsConverted(blob);
    CrlfTwice(blob);
  }

  // ----- the loops of buf_text.c

  lemma {:induction false} PlainLf(s: string, n: nat)
    requires n <= |s| && CR !in s[..n]
    ensures ToLf(s) == s[..n] + ToLf(s[n..])
  {
    if n == 0 {
      assert s[0..] == s;
    } else {
      assert s[..n] == [s[0]] + s[1..][..n - 1] && s[1..][n - 1..] == s[n..];
      PlainLf(s[1..], n - 1);
    }
  }

  lemma {:induction false} PlainCrlf(s: string, n: nat)
    requires n <= |s| && LF !in s[..n] && (0 < n < |s| && s[n - 1] == CR ==> s[n] != LF)
    ensures ToCrlf(s) == s[..n] + ToCrlf(s[n..])
  {
    if n == 0 {
      assert s[0..] == s;
    } else {
      hide ToCrlf;
      var t := s[1..];
      assert forall k :: 0 <= k < n ==> s[k] == s[..n][k];
      assert t[..n - 1] == s[..n][1..];
      PlainCrlf(t, n - 1);
      OtherCrlf(s);
      assert s[..n] == [s[0]] + t[..n - 1] && t[n - 1..] == s[n..];
      Regroup([s[0]], t[..n - 1], ToCrlf(s[n..]));
    }
  }

  lemma OtherCrlf(s: string)
    requires s != "" && s[0] != LF && !StartsPair(s)
    ensures ToCrlf(s) == [s[0]] + ToCrlf(s[1..])
  {}

  // A line of which the newline is at n.
  lemma LineCrlf(s: string, n: nat)
    requires n < |s| && LF !in s[..n] && s[n] == LF
    ensures var m := if n > 0 && s[n - 1] == CR then n - 1 else n;
            ToCrlf(s) == s[..m] + [CR, LF] + ToCrlf(s[n + 1..])
  {
    hide ToCrlf;
    var m := if n > 0 && s[n - 1] == CR then n - 1 else n;
    assert LF !in s[..m];
    assert 0 < m < |s| && s[m - 1] == CR ==> s[m] != LF;
    PlainCrlf(s, m);
    var t := s[m..];
    NewlineCrlf(t);
    assert t[n + 1 - m..] == s[n + 1..];
    Regroup(s[..m], [CR, LF], ToCrlf(s[n + 1..]));
  }

  lemma NewlineCrlf(s: string)
    requires StartsPair(s) || (s != "" && s[0] == LF)
    ensures ToCrlf(s) == [CR, LF] + ToCrlf(if StartsPair(s) then s[2..] else s[1..])
  {}

  lemma Regroup(a: string, b: string, c: string)
    ensures a + (b + c) == (a + b) + c
  {}

  // git_buf_text_crlf_to_lf. The space for it is allocated once.
  method CrlfToLf(src: string) returns (tgt: array<char>, size: nat)
    ensures size < tgt.Length && tgt[..size] == ToLf(src) && tgt[size] == '\0'
  {
    hide ToLf;
    tgt := new char[|src| + 1](_ => '\0');
    size := 0;
    var scan := 0;
    var next := FindFrom(src, CR, 0);
    while next < |src|
      invariant 0 <= scan <= next <= |src| && size <= scan
      invariant CR !in src[scan..next] && (next < |src| ==> src[next] == CR)
      invariant ToLf(src) == tgt[..size] + ToLf(src[scan..])
      decreases |src| - scan
    {
      size := CopyUpTo(tgt, size, src, scan, next);
      scan := next + 1;
      next := FindFrom(src, CR, scan);
    }
    NothingDropped(src[scan..]);
    size := CopyRest(tgt, size, src, scan);
  }

  // The remaining input and the terminator.
  method CopyRest(tgt: array<char>, at: nat, src: string, scan: nat) returns (size: nat)
    requires at <= scan <= |src| == tgt.Length - 1
    modifies tgt
    ensures size == at + (|src| - scan) && tgt[..size] == old(tgt[..at]) + src[scan..] && tgt[size] == '\0'
  {
    CopyChunk(tgt, at, src, scan, |src|);
    size := at + (|src| - scan);
    ghost var all := tgt[..size];
    tgt[size] := '\0';
    assert tgt[..size] == all;
  }

  // One line, up to the carriage return at next.
  method CopyUpTo(tgt: array<char>, at: nat, src: string, scan: nat, next: nat) returns (size: nat)
    requires at <= scan <= next < |src| == tgt.Length - 1
    requires CR !in src[scan..next] && src[next] == CR
    modifies tgt
    ensures size <= next + 1
    ensures tgt[..size] + ToLf(src[next + 1..]) == old(tgt[..at]) + ToLf(src[scan..])
  {
    hide ToLf;
    LfLineAt(tgt[..at], src, scan, next);
    CopyChunk(tgt, at, src, scan, next);
    size := at + (next - scan);
    if next + 1 == |src| || src[next + 1] != LF {
      CopyChunk(tgt, size, src, next, next + 1);
      size := size + 1;
    }
  }

  lemma NothingDropped(s: string)
    requires CR !in s
    ensures ToLf(s) == s
  {
    assert s[..|s|] == s;
    PlainLf(s, |s|);
  }

  lemma LfLineAt(before: string, src: string, scan: nat, next: nat)
    requires scan <= next < |src| && CR !in src[scan..next] && src[next] == CR
    ensures before + ToLf(src[scan..]) ==
            if next + 1 == |src| || src[next + 1] != LF
            then (before + src[scan..next]) + src[next..next + 1] + ToLf(src[next + 1..])
            else before + src[scan..next] + ToLf(src[next + 1..])
  {
    hide ToLf;
    var s := src[scan..];
    LfLine(before, s, next - scan);
    assert s[..next - scan] == src[scan..next] && s[next - scan + 1..] == src[next + 1..];
    assert src[next..next + 1] == [CR];
    assert before + src[scan..next] + [] == before + src[scan..next];
  }

  // A carriage return at n is kept unless a newline follows.
  lemma LfLine(before: string, s: string, n: nat)
    requires n < |s| && CR !in s[..n] && s[n] == CR
    ensures var kept := if n + 1 == |s| || s[n + 1] != LF then [CR] else [];
            before + ToLf(s) == before + s[..n] + kept + ToLf(s[n + 1..])
  {
    hide ToLf;
    var kept := if n + 1 == |s| || s[n + 1] != LF then [CR] else [];
    PlainLf(s, n);
    var t := s[n..];
    CarriageReturnLf(t);
    assert t[1..] == s[n + 1..];
    Regroup(before, s[..n], kept + ToLf(s[n + 1..]));
    Regroup(before + s[..n], kept, ToLf(s[n + 1..]));
  }

  lemma CarriageReturnLf(s: string)
    requires s != "" && s[0] == CR
    ensures ToLf(s) == (if StartsPair(s) then [] else [CR]) + ToLf(s[1..])
  {}

  // memcpy
  method CopyChunk(tgt: array<char>, at: nat, src: string, from: nat, to: nat)
    requires from <= to <= |src| && at + (to - from) <= tgt.Length
    modifies tgt
    ensures tgt[..at + (to - from)] == old(tgt[..at]) + src[from..to]
    ensures tgt[at + (to - from)..] == old(tgt[at + (to - from)..])
  {
    forall k | 0 <= k < to - from {
      tgt[at + k] := src[from + k];
    }
  }

  lemma LineCrlfAt(before: string, src: string, scan: nat, next: nat, n: nat)
    requires scan <= next < |src| && LF !in src[scan..next] && src[next] == LF
    requires n == if next > scan && src[next - 1] == CR then next - scan - 1 else next - scan
    ensures before + ToCrlf(src[scan..]) == before + src[scan..scan + n] + [CR, LF] + ToCrlf(src[next + 1..])
  {
    hide ToCrlf;
    var s := src[scan..];
    assert s[..next - scan] == src[scan..next];
    LineCrlf(s, next - scan);
    assert s[next - scan + 1..] == src[next + 1..] && s[..n] == src[scan..scan + n];
    Regroup(before, s[..n] + [CR, LF], ToCrlf(src[next + 1..]));
    Regroup(before, s[..n], [CR, LF]);
  }

  // git_buf_text_lf_to_crlf
  method LfToCrlf(src: string) returns (tgt: string)
    ensures tgt == ToCrlf(src)
  {
    hide ToCrlf;
    tgt := "";
    var scan := 0;
    var next := FindFrom(src, LF, 0);
    while next < |src|
      invariant 0 <= scan <= next <= |src|
      invariant LF !in src[scan..next] && (next < |src| ==> src[next] == LF)
      invariant ToCrlf(src) == tgt + ToCrlf(src[scan..])
      decreases |src| - scan
    {
      var copyLen := next - scan;
      if copyLen > 0 && src[next - 1] == CR {
        copyLen := copyLen - 1;
      }
      LineCrlfAt(tgt, src, scan, next, copyLen);
      tgt := tgt + src[scan..scan + copyLen];
      tgt := tgt + [CR, LF];
      scan := next + 1;
      next := FindFrom(src, LF, scan);
    }
    NothingLeft(src[scan..]);
    tgt := tgt + src[scan..];
  }

  lemma NothingLeft(s: string)
    requires LF !in s
    ensures ToCrlf(s) == s
  {
    assert s[..|s|] == s;
    PlainCrlf(s, |s|);
  }

  lemma CountNext(t: Stats, s: string, i: nat)
    requires i < |s|
    ensures Add(t, CountAll(s[i..])) == Add(Add(t, Count(s[i], i + 1 < |s| && s[i + 1] == LF)), CountAll(s[i + 1..]))
  {
    hide Add, Count, CountAll;
    var rest := s[i..];
    assert rest[1..] == s[i + 1..];
    CountTail(rest);
    AddRegroup(t, Count(s[i], i + 1 < |s| && s[i + 1] == LF), CountAll(s[i + 1..]));
  }

  lemma AddNothing(t: Stats)
    ensures Add(NO_STATS, t) == t && Add(t, NO_STATS) == t
  {}

  lemma AddRegroup(a: Stats, b: Stats, c: Stats)
    ensures Add(a, Add(b, c)) == Add(Add(a, b), c)
  {}

  // The switch of git_buf_text_gather_stats.
  method Tally(t: Stats, c: char, paired: bool) returns (u: Stats)
    ensures u == Add(t, Count(c, paired))
  {
    u := t;
    if c > 0x1f as char && c != 0x7f as char {
      u := u.(printable := u.printable + 1);
    } else if c == '\0' {
      u := u.(nul := u.nul + 1, nonprintable := u.nonprintable + 1);
    } else if c == LF {
      u := u.(lf := u.lf + 1);
    } else if c == CR {
      u := u.(cr := u.cr + 1);
      if paired {
        u := u.(crlf := u.crlf + 1);
      }
    } else if c == '\t' || c == 12 as char || c == 11 as char || c == 8 as char || c == 0x1b as char {
      u := u.(printable := u.printable + 1);
    } else {
      u := u.(nonprintable := u.nonprintable + 1);
    }
  }

  // The counting loop of git_buf_text_gather_stats.
  method CountLoop(s: string) returns (t: Stats)
    ensures t == CountAll(s)
  {
    hide Add, Count, CountAll;
    var scan := 0;
    t := NO_STATS;
    AddNothing(CountAll(s));
    assert s[0..] == s;
    while scan < |s|
      invariant 0 <= scan <= |s|
      invariant CountAll(s) == Add(t, CountAll(s[scan..]))
    {
      CountNext(t, s, scan);
      var c := s[scan];
      scan := scan + 1;
      t := Tally(t, c, scan < |s| && s[scan] == LF);
    }
    NothingCounted();
    assert s[scan..] == "";
    AddNothing(t);
  }

  // git_buf_text_gather_stats
  method GatherStats(s: string) returns (t: Stats, binary: bool)
    ensures t == GatheredStats(s) && (binary <==> LooksBinary(t))
  {
    hide CountAll;
    var end := |s|;
    if |s| > 0 && s[end - 1] == EOF_CHAR {
      end := end - 1;
    }
    assert s[..end] == WithoutEof(s);
    t := CountLoop(s[..end]);
    binary := t.nul > 0 || t.printable / 128 < t.nonprintable;
  }

  // ----- the filter, step by step

  // crlf_apply_to_odb
  method ApplyToOdb(ca: Attrs, from: string, crInIndex: bool) returns (r: Filtered)
    ensures r == Clean(ca, from, crInIndex)
  {
    hide ToLf, GatheredStats, LooksBinary;
    if |from| == 0 {
      return Same;
    }
    if ca.action == Auto || ca.action == Guess {
      var t, binary := GatherStats(from);
      if binary || t.cr == 0 {
        return Same;
      }
      if t.cr != t.crlf || t.lf != t.crlf {
        if ca.safe == SafeFail {
          return Refused;
        }
      }
      if t.cr != t.crlf {
        return Same;
      }
      if ca.action == Guess && crInIndex {
        return Same;
      }
    }
    var tgt, size := CrlfToLf(from);
    return Changed(tgt[..size]);
  }

  // crlf_apply_to_workdir
  method ApplyToWorkdir(ca: Attrs, from: string, crlfIsNative: bool) returns (r: Filtered)
    ensures r == Smudge(ca, from, crlfIsNative)
  {
    hide ToCrlf, GatheredStats, LooksBinary;
    if |from| == 0 {
      return Same;
    }
    if LineEnding(ca, crlfIsNative) != EolCrlf {
      return Same;
    }
    var t, binary := GatherStats(from);
    if t.lf == 0 || t.lf == t.crlf {
      return Same;
    }
    if ca.action == Auto || ca.action == Guess {
      if ca.action == Guess && t.cr > 0 && t.crlf > 0 {
        return Same;
      }
      if t.cr != t.crlf || binary {
        return Same;
      }
    }
    var tgt := LfToCrlf(from);
    return Changed(tgt);
  }

  // A blob is checked out and committed again.
  method CheckoutAndCommit(ca: Attrs, blob: string, crlfIsNative: bool, crInIndex: bool)
    returns (ok: bool, back: string)
    ensures ok <==> !IsRefused(ca, blob, crlfIsNative)
    ensures ok ==> (back == blob <==> ComesBack(ca, blob, crlfIsNative, crInIndex))
  {
    hide Smudge, Clean, IsRefused, ComesBack;
    CleanUndoesSmudge(ca, blob, crlfIsNative, crInIndex);
    var smudged := ApplyToWorkdir(ca, blob, crlfIsNative);
    var work := Content(smudged, blob);
    var cleaned := ApplyToOdb(ca, work, crInIndex);
    ok, back := !cleaned.Refused?, Content(cleaned, work);
  }
}
