// What the statistics of a text count, and what the line ending filter does to it, without the order of its tests.

module LineEndingRules {
  import opened CStrings
  import opened LineEndings

  // ----- the counts

  // The control characters that text does not hold: 0 to 7, 14 to 26, 28 to 31 and 127.
  predicate Unprintable(c: char) {
    var n := c as int;
    n <= 7 || 14 <= n <= 26 || 28 <= n <= 31 || n == 127
  }

  // How many characters of s are of this kind.
  function HowMany(s: string, kind: char -> bool): nat {
    if s == "" then 0 else (if kind(s[0]) then 1 else 0) + HowMany(s[1..], kind)
  }

  predicate IsNul(c: char) {
    c == 0 as char
  }

  predicate IsReturn(c: char) {
    c == '\r'
  }

  predicate IsNewline(c: char) {
    c == '\n'
  }

  // How many carriage returns have a newline behind them.
  function Pairs(s: string): nat {
    if |s| < 2 then 0 else (if s[0] == '\r' && s[1] == '\n' then 1 else 0) + Pairs(s[1..])
  }

  lemma CharCounts(c: char, paired: bool)
    ensures var t := Count(c, paired);
      && t.nul == (if IsNul(c) then 1 else 0) && t.cr == (if IsReturn(c) then 1 else 0)
      && t.lf == (if IsNewline(c) then 1 else 0) && t.crlf == (if IsReturn(c) && paired then 1 else 0)
      && t.nonprintable == (if Unprintable(c) then 1 else 0)
      && t.printable == 1 - t.cr - t.lf - t.nonprintable
  {}

  // Every character is counted once, by its class.
  lemma {:induction false} CountsAre(s: string)
    ensures var t := CountAll(s);
      && t.nul == HowMany(s, IsNul) && t.cr == HowMany(s, IsReturn) && t.lf == HowMany(s, IsNewline)
      && t.crlf == Pairs(s) && t.nonprintable == HowMany(s, Unprintable)
      && t.printable + t.nonprintable + t.cr + t.lf == |s|
  {
    hide Count, CountAll, Unprintable, IsNul, IsReturn, IsNewline;
    if s == "" {
      NothingCounted();
    } else {
      CountsAre(s[1..]);
      CountTail(s);
      CharCounts(s[0], |s| > 1 && s[1] == LF);
      PairsStep(s);
    }
  }

  lemma PairsStep(s: string)
    requires s != ""
    ensures Pairs(s) == (if IsReturn(s[0]) && |s| > 1 && s[1] == LF then 1 else 0) + Pairs(s[1..])
  {}

  // A text is taken for binary if it has a NUL, or more than one unprintable character for each full 128 others
  // that are no line ends; a character 26 at its end does not count.
  lemma BinaryIs(s: string)
    ensures LooksBinary(GatheredStats(s)) <==>
      var t := WithoutEof(s);
      var bad := HowMany(t, Unprintable);
      HowMany(t, IsNul) > 0 || 128 * bad > |t| - bad - HowMany(t, IsReturn) - HowMany(t, IsNewline)
  {
    hide CountAll;
    var t := WithoutEof(s);
    CountsAre(t);
    Ratio(CountAll(t).printable, CountAll(t).nonprintable);
  }

  lemma Ratio(good: nat, bad: nat)
    ensures good / 128 < bad <==> good < 128 * bad
  {}

  // ----- the ending in the working tree

  // The working tree has CR-LF when the attributes say so; when they leave it open, when core.autocrlf is true; and
  // when that is false, by the eol setting, or else by the platform, but only if the file is known to be text.
  lemma EndingIs(ca: Attrs, crlfIsNative: bool)
    ensures LineEnding(ca, crlfIsNative) == EolCrlf <==>
      || ca.action == Crlf
      || (ca.action in {Guess, Text, Auto} && ca.auto == AutoTrue)
      || (ca.action in {Text, Auto} && ca.auto == AutoFalse
          && (ca.eol == EolCrlf || (ca.eol == EolUnset && crlfIsNative)))
  {}

  // ----- what the filter does

  lemma {:induction false} AllPairedStays(s: string)
    requires CountAll(s).lf == CountAll(s).crlf
    ensures ToCrlf(s) == s
    decreases |s|
  {
    hide Count, CountAll;
    if s != "" {
      CountTail(s);
      CountKinds(s[0], |s| > 1 && s[1] == LF);
      PairsCounted(s[1..]);
      if StartsPair(s) {
        CountPair(s[2..]);
        assert s == [CR, LF] + s[2..];
        AllPairedStays(s[2..]);
      } else {
        AllPairedStays(s[1..]);
        assert s == [s[0]] + s[1..];
      }
    }
  }

  lemma PairedStays(s: string)
    requires GatheredStats(s).lf == GatheredStats(s).crlf
    ensures ToCrlf(s) == s
  {
    hide CountAll, ToCrlf;
    AllPairedStays(WithoutEof(s));
    EofCommutes(s);
    if s != "" && s[|s| - 1] == EOF_CHAR {
      assert s == WithoutEof(s) + [EOF_CHAR];
      EofKept(WithoutEof(s), EOF_CHAR);
    }
  }

  // What is checked out: every newline gets its carriage return, if the ending is CR-LF, unless the file is binary or
  // has a bare carriage return, or under GUESS has a pair already.
  lemma WorkedIs(ca: Attrs, blob: string, crlfIsNative: bool)
    ensures Worked(ca, blob, crlfIsNative) ==
      if LineEnding(ca, crlfIsNative) == EolCrlf && !LeftAlone(ca, blob) && !(ca.action == Guess && HasPair(blob))
      then ToCrlf(blob)
      else blob
  {
    hide LineEnding, LooksBinary, ToCrlf, HasPair, GatheredStats;
    StatsConverted(blob);
    EmptyConverted(blob);
    if GatheredStats(blob).lf == GatheredStats(blob).crlf {
      PairedStays(blob);
    }
    NoLines(blob);
  }

  lemma NoLines(s: string)
    ensures GatheredStats(s).crlf <= GatheredStats(s).lf
  {
    hide ToCrlf, HasPair;
    StatsConverted(s);
  }

  lemma NoReturn(s: string)
    requires GatheredStats(s).cr == 0
    ensures ToLf(s) == s
  {
    hide GatheredStats, HasPair, ToLf, LooksBinary, ToCrlf;
    StatsConverted(s);
    ToLfShrinks(s);
  }

  // What is committed: every pair loses its carriage return, unless AUTO or GUESS finds the file binary or with a
  // bare carriage return, or GUESS finds one in the index. It is refused by AUTO and GUESS alone, with safecrlf FAIL,
  // when a text that has a carriage return has one without the newline or a newline without it.
  lemma CleanedIs(ca: Attrs, work: string, crInIndex: bool)
    ensures var t, clean := GatheredStats(work), Clean(ca, work, crInIndex);
      var looks := ca.action == Auto || ca.action == Guess;
      && (clean.Refused? <==>
            looks && ca.safe == SafeFail && !LooksBinary(t) && t.cr > 0 && !(t.cr == t.crlf == t.lf))
      && (!clean.Refused? ==>
            Content(clean, work) ==
            if LeftAlone(ca, work) || (ca.action == Guess && crInIndex) then work else ToLf(work))
  {
    hide GatheredStats, LooksBinary, ToLf;
    EmptyConverted(work);
    EmptyStats();
    if GatheredStats(work).cr == 0 {
      NoReturn(work);
    }
  }
}
