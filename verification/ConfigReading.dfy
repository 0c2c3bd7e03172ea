// Lines of a configuration file that the program itself would not write: with comments, with quotes inside a value,
// with white space around the equals sign, and lines that are refused.

module ConfigReading {
  import opened Options
  import opened ConfigValue

  // ----- comments

  // How many quotes there are before place i that do not come right behind a backslash. A quote that is the first
  // character of a line does not count.
  function QuotesBefore(line: string, i: nat): nat
    requires i <= |line|
  {
    if i < 2 then 0
    else QuotesBefore(line, i - 1) + if line[i - 1] == '\"' && line[i - 2] != '\\' then 1 else 0
  }

  // How many backslashes there are right before place i.
  function BackslashesBefore(line: string, i: nat): nat
    requires i <= |line|
  {
    if i == 0 || line[i - 1] != '\\' then 0 else 1 + BackslashesBefore(line, i - 1)
  }

  // A comment starts at place i: outside of quotes, and not escaped. inQuotes comes from the lines before.
  predicate IsComment(line: string, inQuotes: nat, i: nat)
    requires i < |line|
  {
    line[i] in ";#" && (inQuotes + QuotesBefore(line, i)) % 2 == 0 && BackslashesBefore(line, i) % 2 == 0
  }

  lemma {:induction false} ScanFrom(line: string, i: nat, inQuotes: nat)
    requires i <= |line| && forall j :: 0 <= j < i ==> !IsComment(line, inQuotes, j)
    ensures var (cut, quotes) := Scan(line, i, inQuotes + QuotesBefore(line, i), BackslashesBefore(line, i));
      && quotes == inQuotes + QuotesBefore(line, cut)
      && (cut < |line| ==> IsComment(line, inQuotes, cut))
      && forall j :: 0 <= j < cut ==> !IsComment(line, inQuotes, j)
    decreases |line| - i
  {
    if i < |line| && !IsComment(line, inQuotes, i) {
      ScanFrom(line, i + 1, inQuotes);
    }
  }

  // A line is cut at its first comment, and the quotes before it are counted.
  lemma CutAtComment(line: string, inQuotes: nat)
    ensures var (cut, quotes) := Scan(line, 0, inQuotes, 0);
      && quotes == inQuotes + QuotesBefore(line, cut)
      && (cut < |line| ==> IsComment(line, inQuotes, cut))
      && forall j :: 0 <= j < cut ==> !IsComment(line, inQuotes, j)
  {
    ScanFrom(line, 0, inQuotes);
  }

  predicate IsPlainText(s: string) {
    forall i :: 0 <= i < |s| ==> s[i] !in "\"\\;#"
  }

  lemma {:induction false} PlainHasNone(line: string, i: nat)
    requires i <= |line| && IsPlainText(line[..i])
    ensures QuotesBefore(line, i) == 0 && BackslashesBefore(line, i) == 0
  {
    if i > 0 {
      assert line[..i][i - 1] == line[i - 1];
      assert forall j :: 0 <= j < i - 1 ==> line[..i - 1][j] == line[..i][j];
      PlainHasNone(line, i - 1);
    }
  }

  // Behind plain text a comment is cut off, and the text is trimmed.
  lemma CommentIsCut(text: string, c: char, comment: string)
    requires IsPlainText(text) && c in ";#"
    ensures StripComments(text + [c] + comment, 0) == (TrimEnd(text), 0)
  {
    hide QuotesBefore, BackslashesBefore, Scan;
    var line := text + [c] + comment;
    assert line[..|text|] == text;
    PlainHasNone(line, |text|);
    forall j | 0 <= j < |text| ensures !IsComment(line, 0, j) {
      assert line[..|text|][j] == line[j];
    }
    CutAtComment(line, 0);
    assert IsComment(line, 0, |text|);
  }

  // ----- names

  predicate IsBlank(s: string) {
    forall i :: 0 <= i < |s| ==> IsSpace(s[i])
  }

  lemma {:induction false} BlankIsTrimmed(ws: string, rest: string)
    requires IsBlank(ws) && (rest != "" ==> !IsSpace(rest[0]))
    ensures TrimStart(ws + rest) == rest
  {
    if ws == "" {
      assert ws + rest == rest;
    } else {
      BlankIsTrimmed(ws[1..], rest);
      assert (ws + rest)[1..] == ws[1..] + rest;
    }
  }

  lemma {:induction false} NameEnds(name: string, rest: string)
    requires (forall i :: 0 <= i < |name| ==> IsNameChar(name[i])) && (rest != "" ==> !IsNameChar(rest[0]))
    ensures NameLength(name + rest) == |name|
  {
    if name == "" {
      assert name + rest == rest;
    } else {
      NameEnds(name[1..], rest);
      assert (name + rest)[1..] == name[1..] + rest;
    }
  }

  // A name, white space, and then an equals sign with a value, the end, or something that is refused.
  lemma NameIsRead(name: string, ws: string, rest: string)
    requires IsName(name) && IsBlank(ws)
    requires rest != "" ==> !IsSpace(rest[0]) && (ws == "" ==> !IsNameChar(rest[0]))
    ensures ParseName(name + ws + rest) ==
      if rest == "" then Named(name, None) else if rest[0] == '=' then Named(name, Some(rest[1..])) else BadName
  {
    var line := name + ws + rest;
    assert line == name + (ws + rest);
    NameEnds(name, ws + rest);
    assert line[..|name|] == name && line[|name|..] == ws + rest;
    BlankIsTrimmed(ws, rest);
  }

  // A line that does not start with a name is refused.
  lemma NoName(line: string)
    requires line == "" || !IsNameChar(line[0])
    ensures ParseName(line) == BadName
  {}

  // ----- values

  // What can be in a value: a quote, which is dropped, an escape, or another character.
  datatype Unit = Quote | Escaped(i: nat) | Raw(c: char)

  // The letters of the escapes, and what they stand for.
  const ESCAPES := "ntb\"\\"
  const ESCAPED := ['\n', '\t', 8 as char, '\"', '\\']

  predicate Valid(u: Unit) {
    match u
    case Quote => true
    case Escaped(i) => i < 5
    case Raw(c) => c != '\"' && c != '\\'
  }

  predicate AllValid(us: seq<Unit>) {
    forall i :: 0 <= i < |us| ==> Valid(us[i])
  }

  function ShownOne(u: Unit): string
    requires Valid(u)
  {
    match u
    case Quote => "\""
    case Escaped(i) => ['\\', ESCAPES[i]]
    case Raw(c) => [c]
  }

  function MeantOne(u: Unit): string
    requires Valid(u)
  {
    match u
    case Quote => ""
    case Escaped(i) => [ESCAPED[i]]
    case Raw(c) => [c]
  }

  function Shown(us: seq<Unit>): string
    requires AllValid(us)
  {
    if us == [] then "" else ShownOne(us[0]) + Shown(us[1..])
  }

  function Meant(us: seq<Unit>): string
    requires AllValid(us)
  {
    if us == [] then "" else MeantOne(us[0]) + Meant(us[1..])
  }

  function After(s: string, t: Text): Text {
    match t
    case Text(value, multi) => Text(s + value, multi)
    case BadEscape => BadEscape
  }

  lemma LetterIsRead(i: nat)
    requires i < 5
    ensures UnescapeLetter(ESCAPES[i]) == Some(ESCAPED[i]) && EscapeLetter(ESCAPED[i]) == Some(ESCAPES[i])
  {}

  lemma AfterBoth(a: string, b: string, t: Text)
    ensures After(a, After(b, t)) == After(a + b, t) && After("", t) == t
    ensures |a| == 1 ==> Prepend(a[0], t) == After(a, t)
  {
    if t.Text? {
      assert a + (b + t.value) == a + b + t.value;
    }
  }

  lemma UnitIsMeant(u: Unit, rest: string)
    requires Valid(u)
    ensures Unescape(ShownOne(u) + rest) == After(MeantOne(u), Unescape(rest))
  {
    hide UnescapeLetter;
    var s := ShownOne(u) + rest;
    AfterBoth(MeantOne(u), "", Unescape(rest));
    match u
    case Quote => assert s[1..] == rest;
    case Escaped(i) =>
      LetterIsRead(i);
      assert s[2..] == rest;
    case Raw(c) => assert s[1..] == rest;
  }

  // A value is read unit by unit, whatever comes behind.
  lemma {:induction false} ValueIsMeant(us: seq<Unit>, rest: string)
    requires AllValid(us)
    ensures Unescape(Shown(us) + rest) == After(Meant(us), Unescape(rest))
  {
    hide After, ShownOne, MeantOne, Unescape;
    if us == [] {
      assert Shown(us) + rest == rest;
      AfterBoth("", "", Unescape(rest));
    } else {
      var more := Shown(us[1..]) + rest;
      ValueIsMeant(us[1..], rest);
      UnitIsMeant(us[0], more);
      AfterBoth(MeantOne(us[0]), Meant(us[1..]), Unescape(rest));
      assert Shown(us) + rest == ShownOne(us[0]) + more;
    }
  }

  // A value goes on in the next line if it ends in a backslash, and is refused if there is another escape in it.
  lemma ValueEnds(us: seq<Unit>, c: char, rest: string)
    requires AllValid(us)
    ensures Unescape(Shown(us)) == Text(Meant(us), false)
    ensures Unescape(Shown(us) + "\\") == Text(Meant(us), true)
    ensures c !in ESCAPES ==> Unescape(Shown(us) + "\\" + [c] + rest) == BadEscape
  {
    hide Shown, Meant;
    var s := Shown(us);
    ValueIsMeant(us, "");
    assert s + "" == s && Meant(us) + "" == Meant(us);
    ValueIsMeant(us, "\\");
    ValueIsMeant(us, "\\" + [c] + rest);
    assert s + ("\\" + [c] + rest) == s + "\\" + [c] + rest;
    if c !in ESCAPES {
      NoLetter(c);
    }
  }

  lemma NoLetter(c: char)
    requires c !in ESCAPES
    ensures UnescapeLetter(c) == None
  {
    assert ESCAPES[0] == 'n' && ESCAPES[1] == 't' && ESCAPES[2] == 'b' && ESCAPES[3] == '\"' && ESCAPES[4] == '\\';
  }

  // ----- whole lines

  // A variable with a value that holds nothing special, white space around the sign, and a comment behind it.
  lemma CommentedLine(name: string, before: string, behind: string, value: string, gap: string, c: char,
                      comment: string)
    requires IsName(name) && IsBlank(before) && IsBlank(behind) && IsBlank(gap) && c in ";#"
    requires value != "" && IsPlainText(value) && !IsSpace(value[0]) && !IsSpace(value[|value| - 1])
    ensures ParseVariable(name + before + "=" + behind + value + gap + [c] + comment) == Variable(name, Some(value))
  {
    hide StripComments, ParseName, Unescape, TrimStart, TrimEnd, IsPlainText, IsBlank;
    var text := name + before + "=" + behind + value;
    LineIsCut(name, before, behind, value, gap, c, comment);
    StartsAtOnce(text + gap + [c] + comment);
    var rest := "=" + behind + value;
    assert text == name + before + rest;
    NameIsRead(name, before, rest);
    assert rest[1..] == behind + value;
    BlankIsTrimmed(behind, value);
    PlainValue(value);
  }

  lemma LineIsCut(name: string, before: string, behind: string, value: string, gap: string, c: char, comment: string)
    requires IsName(name) && IsBlank(before) && IsBlank(behind) && IsBlank(gap) && c in ";#"
    requires value != "" && IsPlainText(value) && !IsSpace(value[|value| - 1])
    ensures var text := name + before + "=" + behind + value;
      StripComments(text + gap + [c] + comment, 0) == (text, 0)
  {
    hide StripComments, TrimEnd, IsPlainText, IsBlank;
    var text := name + before + "=" + behind + value;
    NamesArePlain(name);
    BlanksArePlain(before);
    BlanksArePlain(behind);
    BlanksArePlain(gap);
    SignIsPlain();
    PlainBoth(name, before);
    PlainBoth(name + before, "=");
    PlainBoth(name + before + "=", behind);
    PlainBoth(name + before + "=" + behind, value);
    PlainBoth(text, gap);
    CommentIsCut(text + gap, c, comment);
    BlankEndIsTrimmed(text, gap);
  }

  lemma SignIsPlain()
    ensures IsPlainText("=")
  {}

  lemma PlainBoth(a: string, b: string)
    requires IsPlainText(a) && IsPlainText(b)
    ensures IsPlainText(a + b)
  {}

  lemma NamesArePlain(name: string)
    requires IsName(name)
    ensures IsPlainText(name)
  {
    forall i | 0 <= i < |name| ensures name[i] !in "\"\\;#" {
      assert IsNameChar(name[i]);
    }
  }

  lemma BlanksArePlain(ws: string)
    requires IsBlank(ws)
    ensures IsPlainText(ws)
  {
    forall i | 0 <= i < |ws| ensures ws[i] !in "\"\\;#" {
      assert IsSpace(ws[i]);
    }
  }

  lemma {:induction false} BlankEndIsTrimmed(s: string, gap: string)
    requires s != "" && !IsSpace(s[|s| - 1]) && IsBlank(gap)
    ensures TrimEnd(s + gap) == s
    decreases |gap|
  {
    if gap == "" {
      assert s + gap == s;
    } else {
      BlankEndIsTrimmed(s, gap[..|gap| - 1]);
      assert (s + gap)[..|s + gap| - 1] == s + gap[..|gap| - 1];
    }
  }

  lemma StartsAtOnce(line: string)
    requires line != "" && !IsSpace(line[0])
    ensures TrimStartOfLine(line) == line
  {}

  lemma {:induction false} PlainValue(value: string)
    requires IsPlainText(value)
    ensures Unescape(value) == Text(value, false)
  {
    if value != "" {
      assert value[0] !in "\"\\;#";
      PlainValue(value[1..]);
      assert [value[0]] + value[1..] == value;
    }
  }
}
