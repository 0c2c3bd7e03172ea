// A minified text means what the text means, and minifying takes out just what formatting puts in.

module JsonMinifyMeaning {
  import opened JsonString
  import opened JsonText
  import opened JsonRoundTrip
  import opened JsonMinify
  import opened Options

  // ----- what is left to parse is the end of the buffer

  lemma {:induction false} SkipTerminated(s: string)
    requires Terminated(s)
    ensures Terminated(SkipWs(s)) && (SkipWs(s)[0] > ' ' || SkipWs(s) == "\0")
  {
    if |s| > 1 && s[0] <= ' ' {
      Suffix(s, 1);
      SkipTerminated(s[1..]);
    }
  }

  lemma StringTerminated(s: string)
    requires Terminated(s) && ParseString(s).Parsed?
    ensures Terminated(ParseString(s).rest)
  {
    Suffix(s, 1);
    ClosingIsQuote(s[1..]);
    Suffix(s, Closing(s[1..]).value + 2);
  }

  lemma NumberTerminated<N>(lib: Libc<N>, s: string)
    requires Terminated(s) && ParseNumber(lib, s).Parsed?
    ensures Terminated(ParseNumber(lib, s).rest)
  {
    NumberCharsPrefix(s, 63);
    Suffix(s, lib.scan(NumberChars(s, 63)).used);
  }

  lemma {:induction false} NumberCharsPrefix(s: string, n: nat)
    ensures var t := NumberChars(s, n);
            t == s[..|t|] && |t| <= n && (forall i :: 0 <= i < |t| ==> IsNumberChar(t[i]))
            && (|t| == n || |t| == |s| || !IsNumberChar(s[|t|]))
    ensures Terminated(s) ==> |NumberChars(s, n)| < |s|
  {
    if n > 0 && s != "" && IsNumberChar(s[0]) {
      NumberCharsPrefix(s[1..], n - 1);
      if |s| > 1 && Terminated(s) {
        Suffix(s, 1);
      }
    }
  }

  lemma WordTerminated(s: string, word: string)
    requires Terminated(s) && StartsWith(s, word) && word != "" && word[|word| - 1] != '\0'
    ensures Terminated(s[|word|..])
  {
    assert s[|word| - 1] == word[|word| - 1];
    Suffix(s, |word|);
  }

  lemma {:induction false} ValueTerminated<N>(lib: Libc<N>, s: string, d: nat)
    requires Terminated(s) && ParseValue(lib, s, d).Parsed?
    ensures Terminated(ParseValue(lib, s, d).rest)
    decreases |s|, 1
  {
    hide Terminated, StartsWith, ParseString, ParseNumber, ParseArray, ParseObject;
    if StartsWith(s, "null") {
      WordTerminated(s, "null");
    } else if StartsWith(s, "false") {
      WordTerminated(s, "false");
    } else if StartsWith(s, "true") {
      WordTerminated(s, "true");
    } else if s[0] == '\"' {
      StringTerminated(s);
    } else if s[0] == '-' || '0' <= s[0] <= '9' {
      NumberTerminated(lib, s);
    } else if s[0] == '[' {
      ArrayTerminated(lib, s, d);
    } else {
      ObjectTerminated(lib, s, d);
    }
  }

  // Behind a character that is not the last.
  lemma Behind(s: string)
    requires Terminated(s) && s[0] != '\0'
    ensures Terminated(s[1..])
  {}

  lemma {:induction false} ArrayTerminated<N>(lib: Libc<N>, s: string, d: nat)
    requires Terminated(s) && s[0] == '[' && ParseArray(lib, s, d).Parsed?
    ensures Terminated(ParseArray(lib, s, d).rest)
    decreases |s|, 0
  {
    hide Terminated, ParseItems, SkipWs;
    Behind(s);
    var t := SkipWs(s[1..]);
    SkipTerminated(s[1..]);
    if t[0] == ']' {
      Behind(t);
    } else {
      ItemsTerminated(lib, t, d + 1);
    }
  }

  lemma {:induction false} ItemsTerminated<N>(lib: Libc<N>, s: string, d: nat)
    requires Terminated(s) && ParseItems(lib, s, d).Parsed?
    ensures Terminated(ParseItems(lib, s, d).rest)
    decreases |s|, 2
  {
    hide Terminated, ParseValue, SkipWs;
    SkipTerminated(s);
    ValueTerminated(lib, SkipWs(s), d);
    var more := ParseValue(lib, SkipWs(s), d).rest;
    SkipTerminated(more);
    var t := SkipWs(more);
    Behind(t);
    if t[0] == ',' {
      ItemsTerminated(lib, t[1..], d);
    }
  }

  lemma {:induction false} ObjectTerminated<N>(lib: Libc<N>, s: string, d: nat)
    requires Terminated(s) && s[0] == '{' && ParseObject(lib, s, d).Parsed?
    ensures Terminated(ParseObject(lib, s, d).rest)
    decreases |s|, 0
  {
    hide Terminated, ParseMembers, SkipWs;
    Behind(s);
    var t := SkipWs(s[1..]);
    SkipTerminated(s[1..]);
    if t[0] == '}' {
      Behind(t);
    } else {
      MembersTerminated(lib, t, d + 1);
    }
  }

  lemma {:induction false} MemberTerminated<N>(lib: Libc<N>, s: string, d: nat)
    requires Terminated(s) && ParseMember(lib, s, d).Parsed?
    ensures Terminated(ParseMember(lib, s, d).rest)
    decreases |s|, 2
  {
    hide Terminated, ParseValue, ParseString, SkipWs;
    SkipTerminated(s);
    StringTerminated(SkipWs(s));
    var more := ParseString(SkipWs(s)).rest;
    SkipTerminated(more);
    var t := SkipWs(more);
    Behind(t);
    SkipTerminated(t[1..]);
    ValueTerminated(lib, SkipWs(t[1..]), d);
  }

  lemma {:induction false} MembersTerminated<N>(lib: Libc<N>, s: string, d: nat)
    requires Terminated(s) && ParseMembers(lib, s, d).Parsed?
    ensures Terminated(ParseMembers(lib, s, d).rest)
    decreases |s|, 3
  {
    hide Terminated, ParseMember, SkipWs;
    MemberTerminated(lib, s, d);
    var more := ParseMember(lib, s, d).rest;
    SkipTerminated(more);
    var t := SkipWs(more);
    Behind(t);
    if t[0] == ',' {
      MembersTerminated(lib, t[1..], d);
    }
  }

  // ----- the buffer after cJSON_Minify

  ghost predicate Ends(s: string) {
    Minified(s).Some?
  }

  function Min(s: string): (r: string)
    ensures r != ""
  {
    (if Minified(s).Some? then Minified(s).value else "") + "\0"
  }

  predicate IsPlain(c: char) {
    c != '\0' && !IsBlank(c) && c != '\"' && c != '/'
  }

  lemma MinPlain(c: char, s: string)
    requires IsPlain(c) && Ends(s)
    ensures Ends([c] + s) && Min([c] + s) == [c] + Min(s)
  {
    AtPlain([c] + s, 0);
    assert ([c] + s)[0..] == [c] + s && ([c] + s)[1..] == s;
  }

  lemma MinFirst(s: string)
    requires s != "" && IsPlain(s[0]) && Ends(s[1..])
    ensures Ends(s) && Min(s) == [s[0]] + Min(s[1..])
  {
    assert s == [s[0]] + s[1..];
    MinPlain(s[0], s[1..]);
  }

  lemma {:induction false} MinWord(word: string, s: string)
    requires Ends(s) && forall i :: 0 <= i < |word| ==> IsPlain(word[i])
    ensures Ends(word + s) && Min(word + s) == word + Min(s)
  {
    hide Min, Ends, IsPlain;
    if word == "" {
      assert word + s == s && word + Min(s) == Min(s);
    } else {
      MinWord(word[1..], s);
      MinPlain(word[0], word[1..] + s);
      assert word + s == [word[0]] + (word[1..] + s);
      assert word + Min(s) == [word[0]] + (word[1..] + Min(s));
    }
  }

  lemma MinEnd()
    ensures Ends("\0") && Min("\0") == "\0"
  {}

  // White space in front of a value, or of a character that does not begin a comment.
  lemma {:induction false} MinSkip(s: string)
    requires Terminated(s) && Ends(SkipWs(s)) && SkipWs(s)[0] != '/'
    ensures Ends(s) && SkipWs(Min(s)) == Min(SkipWs(s)) && Min(SkipWs(s))[0] == SkipWs(s)[0]
    ensures s == SkipWs(s) || Min(s)[0] <= ' ' || Min(s)[0] == SkipWs(s)[0]
  {
    if |s| > 1 && s[0] <= ' ' {
      Suffix(s, 1);
      MinSkip(s[1..]);
      if IsBlank(s[0]) {
        assert Minified(s) == Minified(s[1..]);
      } else {
        MinFirst(s);
        assert ([s[0]] + Min(s[1..]))[1..] == Min(s[1..]);
      }
    } else {
      SkipTerminated(s);
      MinKeepsFirst(s);
    }
  }

  lemma MinKeepsFirst(s: string)
    requires Terminated(s) && Ends(s) && (s[0] > ' ' || s == "\0") && s[0] != '/'
    ensures Min(s)[0] == s[0] && SkipWs(Min(s)) == Min(s)
  {
    if s == "\0" {
      MinEnd();
    } else if s[0] == '\"' {
      assert s[0..] == s;
      AtQuote(s, 0);
    } else {
      assert s[0..] == s && s[1..] == s[1..];
      AtPlain(s, 0);
    }
  }

  // ----- string literals

  lemma {:induction false} ClosingPrefix(s: string, x: string)
    requires Closing(s).Some?
    ensures Closing(s[..Closing(s).value + 1] + x) == Closing(s)
  {
    var n := Closing(s).value;
    var t := s[..n + 1] + x;
    assert t[0] == s[0];
    if s[0] != '\"' {
      var step := if s[0] == '\\' then 2 else 1;
      ClosingPrefix(s[step..], x);
      assert t[step..] == s[step..][..n - step + 1] + x;
    }
  }

  lemma LiteralPrefix(s: string, x: string)
    requires ParseString(s).Parsed?
    ensures var n := |s| - |ParseString(s).rest|;
            0 <= n <= |s| && s[n..] == ParseString(s).rest && ParseString(s[..n] + x) == Parsed(ParseString(s).value, x)
  {
    hide Closing, Unescape, CString;
    var n := Closing(s[1..]).value;
    ClosingPrefix(s[1..], x);
    var t := s[..n + 2] + x;
    assert t[1..] == s[1..][..n + 1] + x;
    assert t[1..1 + n] == s[1..1 + n];
    assert t[n + 2..] == x;
  }

  lemma StringKept(s: string)
    requires Terminated(s) && ParseString(s).Parsed? && Ends(ParseString(s).rest)
    ensures Ends(s) && ParseString(Min(s)) == Parsed(ParseString(s).value, Min(ParseString(s).rest))
    ensures s[0] == Min(s)[0] == '\"'
  {
    hide Unescape, CString, Closing;
    var r := ParseString(s).rest;
    var n := Closing(s[1..]).value;
    LiteralPrefix(s, Min(r));
    TwoSlashes(s);
    assert Minified(s) == Before(s[..n + 2], Minified(r));
    assert Min(s) == s[..n + 2] + Min(r);
  }

  // ----- values

  // What follows a value in a text that is accepted.
  predicate Ended(s: string) {
    s != "" && var c := SkipWs(s)[0]; c == ',' || c == ']' || c == '}' || c == '\0'
  }

  lemma EndedKept(r: string)
    requires Terminated(r) && Ended(r) && Ends(r)
    ensures Delimited(r) && Delimited(Min(r))
  {
    SkipTerminated(r);
    EndsAhead(r);
    MinSkip(r);
  }

  lemma {:induction false} EndsAhead(r: string)
    requires Terminated(r) && Ends(r)
    ensures Ends(SkipWs(r))
  {
    if |r| > 1 && r[0] <= ' ' {
      Suffix(r, 1);
      if !IsBlank(r[0]) {
        assert r[0..] == r;
        AtPlain(r, 0);
      }
      EndsAhead(r[1..]);
    }
  }

  lemma WordKept<N>(lib: Libc<N>, s: string, word: string, d: nat)
    requires word == "null" || word == "false" || word == "true"
    requires StartsWith(s, word) && Ends(s[|word|..])
    ensures var v := if word == "null" then Null else Bool(word == "true");
            && ParseValue(lib, s, d) == Parsed(v, s[|word|..])
            && Ends(s) && ParseValue(lib, Min(s), d) == Parsed(v, Min(s[|word|..]))
  {
    hide ParseValue, Min, Ends;
    var r := s[|word|..];
    assert s == word + r;
    WordBack(lib, word, r, d);
    MinWord(word, r);
    WordBack(lib, word, Min(r), d);
  }

  lemma NumberKept<N>(lib: Libc<N>, s: string, d: nat)
    requires Terminated(s) && ParseNumber(lib, s).Parsed? && (s[0] == '-' || '0' <= s[0] <= '9')
    requires Ended(ParseNumber(lib, s).rest) && Ends(ParseNumber(lib, s).rest)
    ensures Ends(s)
    ensures ParseValue(lib, Min(s), d) == Parsed(ParseNumber(lib, s).value, Min(ParseNumber(lib, s).rest))
  {
    hide Ends, Min, Ended, Terminated, NumberChars, ParseValue;
    NumberTerminated(lib, s);
    var digits, r := NumberChars(s, 63), ParseNumber(lib, s).rest;
    var used := lib.scan(digits).used;
    NumberCharsPrefix(s, 63);
    NumberGoesOn(s, digits, used);
    EndedKept(r);
    assert digits == s[..used] && s == digits + r;
    MinWord(digits, r);
    NumberParsed(lib, digits, Min(r), d);
  }

  lemma NumberGoesOn(s: string, digits: string, used: nat)
    requires digits <= s && used < |s| && forall i :: 0 <= i < |digits| ==> IsNumberChar(digits[i])
    ensures used < |digits| ==> IsNumberChar(s[used..][0])
  {}

  lemma NumberParsed<N>(lib: Libc<N>, digits: string, rest: string, d: nat)
    requires digits != "" && |digits| <= 63 && (digits[0] == '-' || '0' <= digits[0] <= '9')
    requires (forall i :: 0 <= i < |digits| ==> IsNumberChar(digits[i])) && Delimited(rest)
    requires lib.scan(digits).used == |digits|
    ensures ParseValue(lib, digits + rest, d) == Parsed(Number(lib.scan(digits).n), rest)
  {
    var t := digits + rest;
    assert t == [t[0]] + t[1..];
    NoWord(t[0], t[1..]);
    hide StartsWith, NumberChars;
    NumberCharsAre(t, |digits|, 63);
    assert t[|digits|..] == rest && t[..|digits|] == digits;
  }

  // A character that is not NUL, and what follows it in the buffer.
  lemma MinStep(s: string)
    requires Terminated(s) && IsPlain(s[0]) && Ends(s[1..])
    ensures Ends(s) && Min(s) != "" && Min(s)[0] == s[0] && Min(s)[1..] == Min(s[1..]) && Terminated(s[1..])
    ensures Min(s) == [s[0]] + Min(s[1..])
  {
    Behind(s);
    MinFirst(s);
  }

  lemma {:induction false} ValueKept<N>(lib: Libc<N>, s: string, d: nat)
    requires Terminated(s) && ParseValue(lib, s, d).Parsed?
    requires Ended(ParseValue(lib, s, d).rest) && Ends(ParseValue(lib, s, d).rest)
    ensures Ends(s)
    ensures ParseValue(lib, Min(s), d) == Parsed(ParseValue(lib, s, d).value, Min(ParseValue(lib, s, d).rest))
    decreases |s|, 1
  {
    hide Terminated, StartsWith, ParseString, ParseNumber, ParseArray, ParseObject, Min, Ends, Ended;
    if StartsWith(s, "null") {
      WordKept(lib, s, "null", d);
    } else if StartsWith(s, "false") {
      WordKept(lib, s, "false", d);
    } else if StartsWith(s, "true") {
      WordKept(lib, s, "true", d);
    } else if s[0] == '\"' {
      StringKept(s);
      Dispatch(Min(s));
    } else if s[0] == '-' || '0' <= s[0] <= '9' {
      NumberKept(lib, s, d);
    } else if s[0] == '[' {
      ArrayKept(lib, s, d);
      Dispatch(Min(s));
    } else {
      ObjectKept(lib, s, d);
      Dispatch(Min(s));
    }
  }

  lemma Dispatch(s: string)
    requires s != "" && s[0] != 'n' && s[0] != 't' && s[0] != 'f'
    ensures !StartsWith(s, "null") && !StartsWith(s, "true") && !StartsWith(s, "false")
  {
    assert s == [s[0]] + s[1..];
    NoWord(s[0], s[1..]);
  }

  lemma {:induction false} ArrayKept<N>(lib: Libc<N>, s: string, d: nat)
    requires Terminated(s) && s[0] == '[' && ParseArray(lib, s, d).Parsed? && Ends(ParseArray(lib, s, d).rest)
    ensures Ends(s) && Min(s)[0] == '['
    ensures ParseArray(lib, Min(s), d) == Parsed(ParseArray(lib, s, d).value, Min(ParseArray(lib, s, d).rest))
    decreases |s|, 0
  {
    hide Terminated, ParseItems, SkipWs, Min, Ends;
    Behind(s);
    var t := SkipWs(s[1..]);
    SkipTerminated(s[1..]);
    if t[0] == ']' {
      MinStep(t);
    } else {
      ItemsKept(lib, t, d + 1);
      ItemsOpenPlain(lib, t, d + 1);
    }
    MinSkip(s[1..]);
    MinStep(s);
  }

  lemma ItemsOpenPlain<N>(lib: Libc<N>, s: string, d: nat)
    requires Terminated(s) && (s[0] > ' ' || s == "\0") && ParseItems(lib, s, d).Parsed?
    ensures s[0] != '/'
  {
    hide ParseItems;
    ItemsUnfold(lib, s, d);
    assert SkipWs(s) == s;
  }

  lemma ItemsUnfold<N>(lib: Libc<N>, s: string, d: nat)
    requires ParseItems(lib, s, d).Parsed?
    ensures ParseValue(lib, SkipWs(s), d).Parsed?
  {
    hide ParseValue;
  }

  lemma ValueOpens<N>(lib: Libc<N>, s: string, d: nat)
    requires ParseValue(lib, s, d).Parsed?
    ensures s != "" && s[0] != '/'
  {
    hide ParseString, ParseNumber, ParseArray, ParseObject;
  }

  // A value with white space around it, and the character behind it.
  lemma {:induction false} InnerKept<N>(lib: Libc<N>, s: string, d: nat)
    requires Terminated(s) && ParseValue(lib, SkipWs(s), d).Parsed?
    requires var t := SkipWs(ParseValue(lib, SkipWs(s), d).rest);
             t != "" && (t[0] == ',' || t[0] == ']' || t[0] == '}') && Ends(t[1..])
    ensures Ends(s)
    ensures var more := ParseValue(lib, SkipWs(s), d).rest; var t := SkipWs(more);
            && ParseValue(lib, SkipWs(Min(s)), d) == Parsed(ParseValue(lib, SkipWs(s), d).value, Min(more))
            && SkipWs(Min(more)) == Min(t) && Min(t)[0] == t[0] && Min(t)[1..] == Min(t[1..])
    decreases |s|, 2
  {
    hide Terminated, ParseValue, SkipWs, Min, Ends;
    SkipTerminated(s);
    var u := SkipWs(s);
    var more := ParseValue(lib, u, d).rest;
    ValueTerminated(lib, u, d);
    SkipTerminated(more);
    MinStep(SkipWs(more));
    MinSkip(more);
    ValueKept(lib, u, d);
    ValueOpens(lib, u, d);
    MinSkip(s);
  }

  lemma {:induction false} ItemsKept<N>(lib: Libc<N>, s: string, d: nat)
    requires Terminated(s) && ParseItems(lib, s, d).Parsed? && Ends(ParseItems(lib, s, d).rest)
    ensures Ends(s)
    ensures ParseItems(lib, Min(s), d) == Parsed(ParseItems(lib, s, d).value, Min(ParseItems(lib, s, d).rest))
    decreases |s|, 3
  {
    hide Terminated, ParseValue, SkipWs, Min, Ends;
    var more := ParseValue(lib, SkipWs(s), d).rest;
    var t := SkipWs(more);
    SkipTerminated(s);
    ValueTerminated(lib, SkipWs(s), d);
    SkipTerminated(more);
    Behind(t);
    if t[0] == ',' {
      ItemsKept(lib, t[1..], d);
    }
    InnerKept(lib, s, d);
  }

  lemma {:induction false} ObjectKept<N>(lib: Libc<N>, s: string, d: nat)
    requires Terminated(s) && s[0] == '{' && ParseObject(lib, s, d).Parsed? && Ends(ParseObject(lib, s, d).rest)
    ensures Ends(s) && Min(s)[0] == '{'
    ensures ParseObject(lib, Min(s), d) == Parsed(ParseObject(lib, s, d).value, Min(ParseObject(lib, s, d).rest))
    decreases |s|, 0
  {
    hide Terminated, ParseMembers, SkipWs, Min, Ends;
    Behind(s);
    var t := SkipWs(s[1..]);
    SkipTerminated(s[1..]);
    if t[0] == '}' {
      MinStep(t);
    } else {
      MembersKept(lib, t, d + 1);
      MembersOpenPlain(lib, t, d + 1);
    }
    MinSkip(s[1..]);
    MinStep(s);
  }

  lemma MembersOpenPlain<N>(lib: Libc<N>, s: string, d: nat)
    requires Terminated(s) && (s[0] > ' ' || s == "\0") && ParseMembers(lib, s, d).Parsed?
    ensures s[0] != '/'
  {
    hide ParseValue;
    assert SkipWs(s) == s;
  }

  lemma {:induction false} MemberKept<N>(lib: Libc<N>, s: string, d: nat)
    requires Terminated(s) && ParseMember(lib, s, d).Parsed?
    requires var t := SkipWs(ParseMember(lib, s, d).rest);
             t != "" && (t[0] == ',' || t[0] == ']' || t[0] == '}') && Ends(t[1..])
    ensures Ends(s)
    ensures var more := ParseMember(lib, s, d).rest; var t := SkipWs(more);
            && ParseMember(lib, Min(s), d) == Parsed(ParseMember(lib, s, d).value, Min(more))
            && SkipWs(Min(more)) == Min(t) && Min(t)[0] == t[0] && Min(t)[1..] == Min(t[1..])
    decreases |s|, 3
  {
    hide Terminated, ParseValue, ParseString, SkipWs, Min, Ends;
    var u := SkipWs(s);
    SkipTerminated(s);
    var afterName := ParseString(u).rest;
    StringTerminated(u);
    SkipTerminated(afterName);
    var colon := SkipWs(afterName);
    Behind(colon);
    InnerKept(lib, colon[1..], d);
    MinStep(colon);
    MinSkip(afterName);
    StringKept(u);
    MinSkip(s);
  }

  lemma {:induction false} MembersKept<N>(lib: Libc<N>, s: string, d: nat)
    requires Terminated(s) && ParseMembers(lib, s, d).Parsed? && Ends(ParseMembers(lib, s, d).rest)
    ensures Ends(s)
    ensures ParseMembers(lib, Min(s), d) == Parsed(ParseMembers(lib, s, d).value, Min(ParseMembers(lib, s, d).rest))
    decreases |s|, 4
  {
    hide Terminated, ParseMember, SkipWs, Min, Ends;
    var more := ParseMember(lib, s, d).rest;
    var t := SkipWs(more);
    MemberTerminated(lib, s, d);
    SkipTerminated(more);
    Behind(t);
    if t[0] == ',' {
      MembersKept(lib, t[1..], d);
    }
    MemberKept(lib, s, d);
  }

  // ----- whole texts

  // A text that is accepted to its end means the same after cJSON_Minify, which does not run past
  // the end of it.
  lemma MinifyKeepsMeaning<N>(lib: Libc<N>, text: string)
    requires NulFree(text) && Parse(lib, text, true).Some?
    ensures Minified(text + "\0").Some?
    ensures Parse(lib, Minified(text + "\0").value, true) == Parse(lib, text, true)
  {
    hide ParseValue, SkipWs, Minified, SkipBom, StartsWith, Ended;
    var s := text + "\0";
    assert Terminated(s);
    var b := SkipBom(s);
    BomTerminated(s);
    SkipTerminated(b);
    var u := SkipWs(b);
    var rest := ParseValue(lib, u, 0).rest;
    ValueTerminated(lib, u, 0);
    SkipTerminated(rest);
    NothingLeft(rest);
    MinSkip(rest);
    ValueKept(lib, u, 0);
    ValueOpens(lib, u, 0);
    MinSkip(b);
    BomKept(s, lib);
  }

  lemma NothingLeft(rest: string)
    requires Terminated(rest) && StartsWith(SkipWs(rest), "\0")
    ensures SkipWs(rest) == "\0" && Ends("\0") && Min("\0") == "\0" && Ended(rest) && StartsWith("\0", "\0")
  {
    SkipTerminated(rest);
    MinEnd();
  }

  lemma BomTerminated(s: string)
    requires Terminated(s)
    ensures Terminated(SkipBom(s)) && (SkipBom(s) == s || s == BOM + SkipBom(s))
  {
    if |s| > 4 {
      Suffix(s, 3);
    }
  }

  // The byte order mark is kept, and none appears.
  lemma BomKept<N>(s: string, lib: Libc<N>)
    requires Terminated(s) && Ends(SkipBom(s)) && Ends(SkipWs(SkipBom(s))) && SkipWs(SkipBom(s))[0] != '/'
    requires ParseValue(lib, SkipWs(SkipBom(s)), 0).Parsed?
    ensures Ends(s) && SkipBom(Min(s)) == Min(SkipBom(s))
  {
    hide ParseValue, Minified, SkipWs;
    var b := SkipBom(s);
    BomTerminated(s);
    MinSkip(b);
    NoBomOpens(lib, SkipWs(b));
    if b == s {
      BomStarts(Min(s));
    } else {
      MinWord(BOM, b);
      BomStarts(BOM + Min(b));
      assert (BOM + Min(b))[3..] == Min(b);
      assert |Min(b)| >= |SkipWs(Min(b))| && SkipWs(Min(b)) == Min(SkipWs(b));
      NotOnlyNul(SkipWs(b));
    }
  }

  lemma BomStarts(s: string)
    ensures SkipBom(s) == if |s| > 4 && s[0] == BOM[0] && s[1] == BOM[1] && s[2] == BOM[2] then s[3..] else s
  {
    if |s| > 4 {
      assert s[..3] == [s[0], s[1], s[2]];
    }
  }

  lemma NotOnlyNul(s: string)
    requires s != "" && s[0] != '\0' && Min(s)[0] == s[0]
    ensures |Min(s)| > 1
  {
    hide Minified;
    assert Min(s)[|Min(s)| - 1] == '\0';
  }

  lemma NoBomOpens<N>(lib: Libc<N>, s: string)
    requires ParseValue(lib, s, 0).Parsed?
    ensures s != "" && s[0] != BOM[0] && s[0] != '\0'
  {
    hide ParseString, ParseNumber, ParseArray, ParseObject;
  }

  // ----- formatting is what is taken out

  lemma MinBlank(c: char, s: string)
    requires IsBlank(c)
    ensures Minified([c] + s) == Minified(s)
  {
    assert ([c] + s)[0..] == [c] + s && ([c] + s)[1..] == s;
    AtBlank([c] + s, 0);
  }

  lemma {:induction false} MinTabs(k: nat, s: string)
    ensures Minified(Tabs(k) + s) == Minified(s)
  {
    hide Minified;
    if k == 0 {
      assert Tabs(k) + s == s;
    } else {
      MinTabs(k - 1, s);
      MinBlank('\t', Tabs(k - 1) + s);
      assert Tabs(k) + s == "\t" + (Tabs(k - 1) + s);
    }
  }

  lemma MinChar(c: char, s: string)
    requires IsPlain(c)
    ensures Minified([c] + s) == Before([c], Minified(s))
  {
    AtPlain([c] + s, 0);
    assert ([c] + s)[0..] == [c] + s && ([c] + s)[1..] == s;
  }

  lemma {:induction false} MinChars(word: string, s: string)
    requires forall i :: 0 <= i < |word| ==> IsPlain(word[i])
    ensures Minified(word + s) == Before(word, Minified(s))
  {
    hide Minified, IsPlain;
    if word == "" {
      assert word + s == s;
      BeforeNothing(Minified(s));
    } else {
      MinChars(word[1..], s);
      MinChar(word[0], word[1..] + s);
      assert word + s == [word[0]] + (word[1..] + s);
      assert word == [word[0]] + word[1..];
      BeforeBoth([word[0]], word[1..], Minified(s));
    }
  }

  lemma MinQuoted(t: string, s: string)
    ensures Minified(Quoted(t) + s) == Before(Quoted(t), Minified(s))
  {
    hide EscapeAll, Closing;
    var u := Quoted(t) + s;
    ClosingEscaped(t, s);
    assert u[1..] == EscapeAll(t) + "\"" + s;
    assert u[..|EscapeAll(t)| + 2] == Quoted(t) && u[|EscapeAll(t)| + 2..] == s;
    TwoSlashes(u);
  }

  // The texts that fmt adds are taken out.
  lemma {:induction false} TextMinified<N>(lib: Libc<N>, v: Value<N>, k: nat, k': nat, rest: string)
    requires Clean(lib, v)
    ensures Minified(Text(lib, true, v, k) + rest) == Before(Text(lib, false, v, k'), Minified(rest))
    decreases v, 1
  {
    hide Minified, Quoted;
    match v
    case Null => MinChars("null", rest);
    case Bool(b) => MinChars(if b then "true" else "false", rest);
    case Number(n) => MinChars(NumberText(lib, n), rest);
    case String(s) => MinQuoted(s, rest);
    case Array(items) => ArrayMinified(lib, items, k, k', rest);
    case Object(members) => ObjectMinified(lib, members, k, k', rest);
  }

  lemma {:induction false} ArrayMinified<N>(lib: Libc<N>, items: seq<Value<N>>, k: nat, k': nat, rest: string)
    requires CleanItems(lib, items)
    ensures Minified(Text(lib, true, Array(items), k) + rest)
         == Before(Text(lib, false, Array(items), k'), Minified(rest))
    decreases items, 1
  {
    hide Minified, ItemsText;
    var t, t' := ItemsText(lib, true, items, k + 1), ItemsText(lib, false, items, k' + 1);
    ItemsMinified(lib, items, k + 1, k' + 1, "]" + rest);
    assert "[" + t + "]" + rest == "[" + (t + ("]" + rest));
    MinChar('[', t + ("]" + rest));
    MinChar(']', rest);
    BeforeBoth(t', "]", Minified(rest));
    BeforeBoth("[", t' + "]", Minified(rest));
    assert "[" + t' + "]" == "[" + (t' + "]");
  }

  lemma {:induction false} ItemsMinified<N>(lib: Libc<N>, items: seq<Value<N>>, k: nat, k': nat, rest: string)
    requires CleanItems(lib, items)
    ensures Minified(ItemsText(lib, true, items, k) + rest) == Before(ItemsText(lib, false, items, k'), Minified(rest))
    decreases items, 0
  {
    hide Minified, Text;
    if items == [] {
      assert "" + rest == rest;
      BeforeNothing(Minified(rest));
    } else if |items| == 1 {
      TextMinified(lib, items[0], k, k', rest);
    } else {
      var t, t' := Text(lib, true, items[0], k), Text(lib, false, items[0], k');
      var u, u' := ItemsText(lib, true, items[1..], k), ItemsText(lib, false, items[1..], k');
      ItemsMinified(lib, items[1..], k, k', rest);
      MinChar(',', " " + (u + rest));
      MinBlank(' ', u + rest);
      TextMinified(lib, items[0], k, k', "," + (" " + (u + rest)));
      assert t + ", " + u + rest == t + ("," + (" " + (u + rest)));
      BeforeBoth(",", u', Minified(rest));
      BeforeBoth(t', "," + u', Minified(rest));
      assert t' + "," + u' == t' + ("," + u');
    }
  }

  lemma {:induction false} ObjectMinified<N>(lib: Libc<N>, members: seq<Member<N>>, k: nat, k': nat, rest: string)
    requires CleanMembers(lib, members)
    ensures Minified(Text(lib, true, Object(members), k) + rest)
         == Before(Text(lib, false, Object(members), k'), Minified(rest))
    decreases members, 3
  {
    hide Minified, MembersText, Tabs;
    var t, t' := MembersText(lib, true, members, k + 1), MembersText(lib, false, members, k' + 1);
    var end := Tabs(k) + ("}" + rest);
    MembersMinified(lib, members, k + 1, k' + 1, end);
    assert "{\n" + t + Tabs(k) + "}" + rest == "{" + ("\n" + (t + end));
    MinChar('{', "\n" + (t + end));
    MinBlank('\n', t + end);
    MinTabs(k, "}" + rest);
    MinChar('}', rest);
    BeforeBoth(t', "}", Minified(rest));
    BeforeBoth("{", t' + "}", Minified(rest));
    assert "{" + t' + "" + "}" == "{" + (t' + "}");
  }

  lemma {:induction false} MembersMinified<N>(lib: Libc<N>, members: seq<Member<N>>, k: nat, k': nat, rest: string)
    requires CleanMembers(lib, members)
    ensures Minified(MembersText(lib, true, members, k) + rest)
         == Before(MembersText(lib, false, members, k'), Minified(rest))
    decreases members, 2
  {
    hide Minified, Text, Quoted, Tabs, MembersText;
    if members == [] {
      EmptyMembersText(lib, true, k);
      EmptyMembersText(lib, false, k');
      assert "" + rest == rest;
      BeforeNothing(Minified(rest));
    } else {
      var m, more := members[0], AfterMember(lib, true, members[1..], k, rest);
      var value := Text(lib, true, m.value, k) + more;
      FirstMember(lib, true, members, k, rest);
      MinTabs(k, Quoted(m.name) + (":\t" + value));
      MinQuoted(m.name, ":\t" + value);
      assert ":\t" + value == ":" + ("\t" + value);
      MinChar(':', "\t" + value);
      MinBlank('\t', value);
      TextMinified(lib, m.value, k, k', more);
      MembersMinified(lib, members[1..], k, k', rest);
      MoreMinified(lib, members[1..], k, rest);
      MembersCompact(lib, members, k', Minified(rest));
    }
  }

  lemma MoreMinified<N>(lib: Libc<N>, members: seq<Member<N>>, k: nat, rest: string)
    ensures Minified(AfterMember(lib, true, members, k, rest))
         == Before(if members == [] then "" else ",", Minified(MembersText(lib, true, members, k) + rest))
  {
    hide Minified, MembersText;
    var t := MembersText(lib, true, members, k) + rest;
    MinBlank('\n', t);
    BeforeNothing(Minified(t));
    if members != [] {
      MinChar(',', "\n" + t);
    } else {
      assert "" + ("\n" + t) == "\n" + t;
    }
  }

  // The unformatted members, from the first on.
  lemma MembersCompact<N>(lib: Libc<N>, members: seq<Member<N>>, k: nat, r: Option<string>)
    requires members != []
    ensures Before(MembersText(lib, false, members, k), r)
         == Before(Quoted(members[0].name), Before(":", Before(Text(lib, false, members[0].value, k),
              Before(if |members| == 1 then "" else ",", Before(MembersText(lib, false, members[1..], k), r)))))
  {
    hide Text, Quoted;
    var a, b, c := Quoted(members[0].name), ":", Text(lib, false, members[0].value, k);
    var d, e := if |members| == 1 then "" else ",", MembersText(lib, false, members[1..], k);
    assert MembersText(lib, false, members, k) == a + (b + (c + (d + e)));
    BeforeBoth(d, e, r);
    BeforeBoth(c, d + e, r);
    BeforeBoth(b, c + (d + e), r);
    BeforeBoth(a, b + (c + (d + e)), r);
  }

  // Minifying what cJSON_Print prints gives what cJSON_PrintUnformatted prints.
  lemma MinifiedPrint<N>(lib: Libc<N>, v: Value<N>)
    requires Clean(lib, v)
    ensures Minified(Text(lib, true, v, 0) + "\0") == Some(Text(lib, false, v, 0))
  {
    hide Text;
    TextMinified(lib, v, 0, 0, "\0");
    assert Text(lib, false, v, 0) + "" == Text(lib, false, v, 0);
  }
}
