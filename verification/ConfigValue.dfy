// Writing a configuration value as a line and reading it back: config_file.c and config_parse.c.

module ConfigValue {
  import opened Options

  // git__isspace
  predicate IsSpace(c: char) {
    c == ' ' || c == '\t' || c == '\n' || c == 12 as char || c == '\r' || c == 11 as char
  }

  predicate IsNameChar(c: char) {
    '0' <= c <= '9' || 'a' <= c <= 'z' || 'A' <= c <= 'Z' || c == '-'
  }

  // ----- writing

  // The letter for a character that is escaped.
  function EscapeLetter(c: char): Option<char> {
    if c == '\n' then Some('n')
    else if c == '\t' then Some('t')
    else if c == 8 as char then Some('b')
    else if c == '\"' then Some('\"')
    else if c == '\\' then Some('\\')
    else None
  }

  function EscapeChar(c: char): string {
    match EscapeLetter(c)
    case Some(l) => ['\\', l]
    case None => [c]
  }

  // escape_value
  function Escape(v: string): string {
    if v == "" then "" else EscapeChar(v[0]) + Escape(v[1..])
  }

  // quotes_for_value
  predicate NeedsQuotes(e: string) {
    e == "" || e[0] == ' ' || e[|e| - 1] == ' ' || ';' in e || '#' in e
  }

  function Quotes(e: string): string {
    if NeedsQuotes(e) then "\"" else ""
  }

  // What write_value puts behind the tab.
  function ValueLine(name: string, e: string): string {
    name + " = " + Quotes(e) + e + Quotes(e) + "\n"
  }

  // ----- reading

  // strip_comments from place i on: where the line is cut off, and the number of quotes.
  function Scan(line: string, i: nat, quotes: nat, backslashes: nat): (r: (nat, nat))
    requires i <= |line|
    ensures i <= r.0 <= |line|
    decreases |line| - i
  {
    if i == |line| then (i, quotes)
    else
      var c, q := line[i], if line[i] == '\"' && i > 0 && line[i - 1] != '\\' then quotes + 1 else quotes;
      if (c == ';' || c == '#') && q % 2 == 0 && backslashes % 2 == 0 then (i, q)
      else Scan(line, i + 1, q, if c == '\\' then backslashes + 1 else 0)
  }

  function TrimEnd(s: string): (r: string)
    ensures |r| <= |s|
  {
    if s != "" && IsSpace(s[|s| - 1]) then TrimEnd(s[..|s| - 1]) else s
  }

  function TrimStart(s: string): (r: string)
    ensures |r| <= |s|
  {
    if s != "" && IsSpace(s[0]) then TrimStart(s[1..]) else s
  }

  function StripComments(line: string, inQuotes: nat): (string, nat) {
    var (cut, quotes) := Scan(line, 0, inQuotes, 0);
    (TrimEnd(line[..cut]), quotes)
  }

  function NameLength(line: string): (n: nat)
    ensures n <= |line|
  {
    if line == "" || !IsNameChar(line[0]) then 0 else 1 + NameLength(line[1..])
  }

  // parse_name: the name, and what is behind the equals sign.
  datatype Named = Named(name: string, value: Option<string>) | BadName

  function ParseName(line: string): Named {
    var n := NameLength(line);
    var rest := TrimStart(line[n..]);
    if n == 0 then BadName
    else if rest == "" then Named(line[..n], None)
    else if rest[0] == '=' then Named(line[..n], Some(rest[1..]))
    else BadName
  }

  function UnescapeLetter(c: char): Option<char> {
    if c == 'n' then Some('\n')
    else if c == 't' then Some('\t')
    else if c == 'b' then Some(8 as char)
    else if c == '\"' then Some('\"')
    else if c == '\\' then Some('\\')
    else None
  }

  // unescape_line. multi: the line ends in a backslash and goes on in the next.
  datatype Text = Text(value: string, multi: bool) | BadEscape

  function Prepend(c: char, t: Text): Text {
    match t
    case Text(value, multi) => Text([c] + value, multi)
    case BadEscape => BadEscape
  }

  function Unescape(s: string): Text {
    if s == "" then Text("", false)
    else if s[0] == '\"' then Unescape(s[1..])
    else if s[0] != '\\' then Prepend(s[0], Unescape(s[1..]))
    else if |s| == 1 then Text("", true)
    else
      match UnescapeLetter(s[1])
      case None => BadEscape
      case Some(c) => Prepend(c, Unescape(s[2..]))
  }

  // What a line of a configuration file is: parse_variable, for a line that stands alone. Continued:
  // the value goes on in the next line.
  datatype Variable = Variable(name: string, value: Option<string>) | Continued(name: string, start: string) | Malformed

  function ParseVariable(line: string): Variable {
    var (text, _) := StripComments(TrimStartOfLine(line), 0);
    match ParseName(text)
    case BadName => Malformed
    case Named(name, None) => Variable(name, None)
    case Named(name, Some(rest)) =>
      match Unescape(TrimStart(rest))
      case BadEscape => Malformed
      case Text(value, true) => Continued(name, value)
      case Text(value, false) => Variable(name, Some(value))
  }

  // git_parse_advance_ws
  function TrimStartOfLine(s: string): string {
    if s != "" && s[0] != '\n' && IsSpace(s[0]) then TrimStartOfLine(s[1..]) else s
  }

  datatype LineKind = SectionLine | CommentLine | VariableLine

  // The switch of git_config_parse, by the first character that is not white space, or the first
  // one when there is none.
  function Kind(line: string): LineKind
    requires line != ""
  {
    var rest := TrimStart(line);
    var c := if rest == "" then line[0] else rest[0];
    if c == '[' then SectionLine
    else if c == '\n' || c == '\r' || c == ' ' || c == '\t' || c == ';' || c == '#' then CommentLine
    else VariableLine
  }

  // ----- what is lost

  // White space that is not escaped.
  predicate IsRaw(c: char) {
    IsSpace(c) && c != '\n' && c != '\t'
  }

  function StripFront(v: string): string {
    if v != "" && IsRaw(v[0]) then StripFront(v[1..]) else v
  }

  function StripBack(v: string): string {
    if v != "" && IsRaw(v[|v| - 1]) then StripBack(v[..|v| - 1]) else v
  }

  // What a value becomes when it is written without quotes.
  function Strip(v: string): string {
    StripFront(StripBack(v))
  }

  // ----- the scan for comments

  lemma {:induction false} NoCommentFrom(line: string, i: nat, quotes: nat, backslashes: nat)
    requires i <= |line| && forall j :: i <= j < |line| ==> line[j] != ';' && line[j] != '#'
    ensures Scan(line, i, quotes, backslashes).0 == |line|
    decreases |line| - i
  {
    if i < |line| {
      var q := if line[i] == '\"' && i > 0 && line[i - 1] != '\\' then quotes + 1 else quotes;
      NoCommentFrom(line, i + 1, q, if line[i] == '\\' then backslashes + 1 else 0);
    }
  }

  // Up to place j nothing but quotes behind backslashes, in quotes.
  lemma {:induction false} NoCommentInQuotes(line: string, i: nat, j: nat, quotes: nat, backslashes: nat)
    requires 0 < i <= j <= |line| && quotes % 2 == 1
    requires forall k :: i <= k < j ==> line[k] == '\"' ==> line[k - 1] == '\\'
    requires forall k :: j <= k < |line| ==> line[k] != ';' && line[k] != '#'
    ensures Scan(line, i, quotes, backslashes).0 == |line|
    decreases |line| - i
  {
    if i == j {
      NoCommentFrom(line, i, quotes, backslashes);
    } else {
      NoCommentInQuotes(line, i + 1, j, quotes, if line[i] == '\\' then backslashes + 1 else 0);
    }
  }

  lemma {:induction false} NoQuotesBefore(line: string, i: nat, j: nat, quotes: nat, backslashes: nat)
    requires i <= j <= |line|
    requires forall k :: i <= k < j ==> line[k] != '\"' && line[k] != ';' && line[k] != '#' && line[k] != '\\'
    ensures Scan(line, i, quotes, backslashes) == Scan(line, j, quotes, if i == j then backslashes else 0)
    decreases j - i
  {
    if i < j {
      NoQuotesBefore(line, i + 1, j, quotes, 0);
    }
  }

  // In an escaped value every quote has a backslash in front of it.
  lemma {:induction false} QuotesAreEscaped(v: string, k: nat)
    requires k < |Escape(v)| && Escape(v)[k] == '\"'
    ensures k > 0 && Escape(v)[k - 1] == '\\'
  {
    var n := |EscapeChar(v[0])|;
    if k >= n {
      QuotesAreEscaped(v[1..], k - n);
    }
  }

  // Escaping brings in no comment characters.
  lemma {:induction false} EscapeHasNoMore(v: string, c: char)
    requires c == ';' || c == '#'
    ensures c in Escape(v) <==> c in v
  {
    if v != "" {
      EscapeHasNoMore(v[1..], c);
      assert v == [v[0]] + v[1..];
      assert c in EscapeChar(v[0]) <==> c == v[0];
    }
  }

  predicate IsName(name: string) {
    name != "" && forall i :: 0 <= i < |name| ==> IsNameChar(name[i])
  }

  // The whole line is read: no comment is seen in it.
  lemma LineIsNotCut(name: string, v: string)
    requires IsName(name)
    ensures Scan(ValueLine(name, Escape(v)), 0, 0, 0).0 == |ValueLine(name, Escape(v))|
  {
    hide Scan, Escape, NeedsQuotes;
    var e := Escape(v);
    var head, line := name + " = ", ValueLine(name, e);
    if NeedsQuotes(e) {
      var tail := "\"\n";
      assert line == head + "\"" + e + tail;
      var i := |head|;
      NoQuotesBefore(line, 0, i, 0, 0);
      OpeningQuote(line, i);
      forall k | i + 1 <= k < i + 1 + |e| ensures line[k] == '\"' ==> line[k - 1] == '\\' {
        if line[k] == '\"' {
          assert e[k - i - 1] == line[k];
          QuotesAreEscaped(v, k - i - 1);
        }
      }
      NoCommentInQuotes(line, i + 1, i + 1 + |e|, 1, 0);
    } else {
      NoCommentUnquoted(e);
      assert line == head + e + "\n";
      NoCommentFrom(line, 0, 0, 0);
    }
  }

  lemma NoCommentUnquoted(e: string)
    requires !NeedsQuotes(e)
    ensures ';' !in e && '#' !in e
  {}

  lemma OpeningQuote(line: string, i: nat)
    requires 0 < i < |line| && line[i] == '\"' && line[i - 1] != '\\'
    ensures Scan(line, i, 0, 0) == Scan(line, i + 1, 1, 0)
  {}

  // ----- trimming

  lemma {:induction false} TrimEndBehind(a: string, b: string)
    ensures TrimEnd(a + b) == if TrimEnd(b) != "" then a + TrimEnd(b) else TrimEnd(a)
    decreases |b|
  {
    if b == "" {
      assert a + b == a;
    } else if IsSpace(b[|b| - 1]) {
      TrimEndBehind(a, b[..|b| - 1]);
      assert (a + b)[..|a + b| - 1] == a + b[..|b| - 1];
    }
  }

  lemma {:induction false} EscapeSnoc(v: string, c: char)
    ensures Escape(v + [c]) == Escape(v) + EscapeChar(c)
  {
    hide EscapeChar;
    if v == "" {
      assert v + [c] == [c] && [c][1..] == "";
    } else {
      EscapeSnoc(v[1..], c);
      assert (v + [c])[1..] == v[1..] + [c];
      assert EscapeChar(v[0]) + (Escape(v[1..]) + EscapeChar(c)) == EscapeChar(v[0]) + Escape(v[1..]) + EscapeChar(c);
    }
  }

  // The ends of an escaped character.
  lemma EscapeEnds(c: char)
    ensures var e := EscapeChar(c);
            && e != "" && (IsSpace(e[0]) <==> IsRaw(c)) && (IsSpace(e[|e| - 1]) <==> IsRaw(c))
            && (IsRaw(c) ==> e == [c])
            && (e[0] == ' ' <==> c == ' ') && (e[|e| - 1] == ' ' <==> c == ' ')
  {}

  lemma {:induction false} TrimEndEscaped(v: string)
    ensures TrimEnd(Escape(v)) == Escape(StripBack(v))
    decreases |v|
  {
    if v != "" {
      hide EscapeChar;
      var front, c := v[..|v| - 1], v[|v| - 1];
      assert v == front + [c];
      EscapeSnoc(front, c);
      EscapeEnds(c);
      TrimEndBehind(Escape(front), EscapeChar(c));
      if IsRaw(c) {
        TrimEndEscaped(front);
        assert TrimEnd([c]) == "";
      } else {
        assert TrimEnd(EscapeChar(c)) == EscapeChar(c);
      }
    }
  }

  lemma {:induction false} TrimStartEscaped(v: string)
    ensures TrimStart(Escape(v)) == Escape(StripFront(v))
  {
    if v != "" {
      hide EscapeChar;
      EscapeEnds(v[0]);
      if IsRaw(v[0]) {
        TrimStartEscaped(v[1..]);
        assert Escape(v)[1..] == Escape(v[1..]);
      }
    }
  }

  // ----- the name

  lemma {:induction false} NameEnds(name: string, rest: string)
    requires (forall i :: 0 <= i < |name| ==> IsNameChar(name[i])) && rest != "" && !IsNameChar(rest[0])
    ensures NameLength(name + rest) == |name|
  {
    if name == "" {
      assert name + rest == rest;
    } else {
      NameEnds(name[1..], rest);
      assert (name + rest)[1..] == name[1..] + rest;
    }
  }

  lemma NameIsParsed(name: string, rest: string)
    requires IsName(name)
    ensures ParseName(name + " =" + rest) == Named(name, Some(rest))
  {
    var line := name + (" =" + rest);
    assert name + " =" + rest == line;
    NameEnds(name, " =" + rest);
    assert line[|name|..] == " =" + rest && line[..|name|] == name;
    assert (" =" + rest)[1..] == "=" + rest && ("=" + rest)[1..] == rest;
    assert TrimStart("=" + rest) == "=" + rest;
  }

  // ----- the escapes

  lemma UnescapeEscaped(c: char)
    ensures EscapeLetter(c).Some? ==> UnescapeLetter(EscapeLetter(c).value) == Some(c)
    ensures EscapeLetter(c).None? ==> c != '\"' && c != '\\'
  {}

  lemma Regroup(a: string, b: string, c: string)
    ensures a + b + c == a + (b + c)
  {}

  lemma {:induction false} UnescapeRest(v: string, rest: string, tail: string)
    requires Unescape(rest) == Text(tail, false)
    ensures Unescape(Escape(v) + rest) == Text(v + tail, false)
  {
    hide Unescape, EscapeChar;
    if v == "" {
      assert Escape(v) + rest == rest && v + tail == tail;
    } else {
      UnescapeRest(v[1..], rest, tail);
      UnescapeOne(v[0], Escape(v[1..]) + rest);
      Regroup(EscapeChar(v[0]), Escape(v[1..]), rest);
      assert [v[0]] + (v[1..] + tail) == v + tail;
    }
  }

  lemma UnescapeOne(c: char, rest: string)
    ensures Unescape(EscapeChar(c) + rest) == Prepend(c, Unescape(rest))
  {
    UnescapeEscaped(c);
    var s := EscapeChar(c) + rest;
    if EscapeLetter(c).Some? {
      assert s[0] == '\\' && s[1] == EscapeLetter(c).value && s[2..] == rest;
    } else {
      assert s[0] == c && s[1..] == rest;
    }
  }

  lemma ValueIsUnescaped(v: string)
    ensures Unescape(Escape(v)) == Text(v, false)
    ensures Unescape("\"" + Escape(v) + "\"") == Text(v, false)
  {
    assert Escape(v) + "" == Escape(v) && v + "" == v;
    UnescapeRest(v, "", "");
    assert Unescape("\"") == Text("", false);
    UnescapeRest(v, "\"", "");
    assert ("\"" + Escape(v) + "\"")[1..] == Escape(v) + "\"";
  }

  // ----- the whole line

  // The line without the newline and what is trimmed with it.
  lemma QuotedIsTrimmed(name: string, e: string)
    requires NeedsQuotes(e)
    ensures TrimEnd(ValueLine(name, e)) == name + " =" + (" \"" + e + "\"")
  {
    hide NeedsQuotes;
    var line := name + " = \"" + e + "\"";
    assert ValueLine(name, e) == line + "\n" && line == name + " =" + (" \"" + e + "\"");
    NewlineIsTrimmed(line);
    assert line[|line| - 1] == '\"';
  }

  lemma NewlineIsTrimmed(line: string)
    ensures TrimEnd(line + "\n") == TrimEnd(line)
  {
    assert (line + "\n")[..|line|] == line;
  }

  lemma UnquotedIsTrimmed(name: string, v: string)
    requires IsName(name) && !NeedsQuotes(Escape(v))
    ensures TrimEnd(ValueLine(name, Escape(v)))
         == name + " =" + (if StripBack(v) == "" then "" else " " + Escape(StripBack(v)))
  {
    hide Escape, NeedsQuotes, TrimEnd;
    var e, head := Escape(v), name + " = ";
    assert ValueLine(name, e) == head + e + "\n";
    NewlineIsTrimmed(head + e);
    TrimEndBehind(head, e);
    TrimEndEscaped(v);
    EscapeIsEmpty(StripBack(v));
    if StripBack(v) == "" {
      HeadIsTrimmed(name);
    } else {
      assert head + Escape(StripBack(v)) == name + " =" + (" " + Escape(StripBack(v)));
    }
  }

  lemma HeadIsTrimmed(name: string)
    ensures TrimEnd(name + " = ") == name + " =" + ""
  {
    assert (name + " = ")[..|name| + 2] == name + " =" + "";
  }

  lemma SpaceIsTrimmed(s: string)
    ensures TrimStart(" " + s) == TrimStart(s)
    ensures s != "" && s[0] == '\"' ==> TrimStart(s) == s
  {
    assert (" " + s)[1..] == s;
  }

  lemma EscapeIsEmpty(v: string)
    ensures Escape(v) == "" <==> v == ""
  {}

  lemma TabIsTrimmed(name: string, rest: string)
    requires IsName(name)
    ensures TrimStartOfLine("\t" + (name + rest)) == name + rest
    ensures TrimStart("\t" + (name + rest)) == name + rest
  {
    assert ("\t" + (name + rest))[1..] == name + rest && (name + rest)[0] == name[0];
  }

  // A value that is written is read back as it is when it was put in quotes, and without the white
  // space at its ends otherwise. The line is never malformed or continued.
  lemma ValueIsRead(name: string, v: string)
    requires IsName(name)
    ensures ParseVariable("\t" + ValueLine(name, Escape(v)))
         == Variable(name, Some(if NeedsQuotes(Escape(v)) then v else Strip(v)))
  {
    hide Escape, Scan, TrimEnd, TrimStart, NeedsQuotes, ParseName, Unescape;
    var e := Escape(v);
    var line := ValueLine(name, e);
    assert line == name + (" = " + Quotes(e) + e + Quotes(e) + "\n");
    TabIsTrimmed(name, " = " + Quotes(e) + e + Quotes(e) + "\n");
    LineIsNotCut(name, v);
    assert line[..|line|] == line;
    if NeedsQuotes(e) {
      QuotedIsTrimmed(name, e);
      NameIsParsed(name, " \"" + e + "\"");
      assert " \"" + e + "\"" == " " + ("\"" + e + "\"");
      SpaceIsTrimmed("\"" + e + "\"");
      ValueIsUnescaped(v);
    } else {
      var t := StripBack(v);
      UnquotedIsTrimmed(name, v);
      NameIsParsed(name, if t == "" then "" else " " + Escape(t));
      SpaceIsTrimmed(Escape(t));
      TrimStartEscaped(t);
      EscapeIsEmpty(t);
      ValueIsUnescaped(Strip(v));
    }
  }

  // ----- when nothing is lost

  predicate IsLost(c: char) {
    c == '\r' || c == 11 as char || c == 12 as char
  }

  predicate Quoted(v: string) {
    v == "" || v[0] == ' ' || v[|v| - 1] == ' ' || ';' in v || '#' in v
  }

  lemma EscapedEnds(v: string)
    requires v != ""
    ensures var e := Escape(v); e != "" && (e[0] == ' ' <==> v[0] == ' ') && (e[|e| - 1] == ' ' <==> v[|v| - 1] == ' ')
  {
    hide EscapeChar;
    var front, c := v[..|v| - 1], v[|v| - 1];
    EscapeEnds(v[0]);
    EscapeEnds(c);
    assert v == front + [c];
    EscapeSnoc(front, c);
  }

  lemma QuotedByValue(v: string)
    ensures NeedsQuotes(Escape(v)) <==> Quoted(v)
  {
    hide Escape;
    EscapeHasNoMore(v, ';');
    EscapeHasNoMore(v, '#');
    EscapeIsEmpty(v);
    if v != "" {
      EscapedEnds(v);
    }
  }

  lemma {:induction false} StripFrontKeeps(v: string)
    ensures StripFront(v) == v <==> v == "" || !IsRaw(v[0])
    ensures |StripFront(v)| <= |v| && (StripFront(v) != v ==> |StripFront(v)| < |v|)
  {
    if v != "" && IsRaw(v[0]) {
      StripFrontKeeps(v[1..]);
    }
  }

  lemma {:induction false} StripBackKeeps(v: string)
    ensures StripBack(v) == v <==> v == "" || !IsRaw(v[|v| - 1])
    ensures |StripBack(v)| <= |v| && (StripBack(v) != v ==> |StripBack(v)| < |v|)
    decreases |v|
  {
    if v != "" && IsRaw(v[|v| - 1]) {
      StripBackKeeps(v[..|v| - 1]);
    }
  }

  // The round trip holds for just those values that are put in quotes or neither start nor end
  // with a carriage return, a vertical tab or a form feed.
  lemma RoundTrip(name: string, v: string)
    requires IsName(name)
    ensures ParseVariable("\t" + ValueLine(name, Escape(v))) == Variable(name, Some(v))
       <==> Quoted(v) || !(IsLost(v[0]) || IsLost(v[|v| - 1]))
  {
    hide ParseVariable, ValueLine, Escape, NeedsQuotes;
    ValueIsRead(name, v);
    QuotedByValue(v);
    if !Quoted(v) {
      StripBackKeeps(v);
      StripFrontKeeps(v);
      StripFrontKeeps(StripBack(v));
    }
  }

  // A carriage return is a value that is lost.
  lemma CarriageReturnIsLost(name: string)
    requires IsName(name)
    ensures ParseVariable("\t" + ValueLine(name, Escape("\r"))) == Variable(name, Some(""))
  {
    hide ParseVariable, ValueLine, Escape, NeedsQuotes;
    ValueIsRead(name, "\r");
    QuotedByValue("\r");
    assert StripBack("\r") == "" by {
      assert "\r"[..0] == "";
    }
  }

  // The line that is written is read as a variable.
  lemma LineIsVariable(name: string, v: string)
    requires IsName(name)
    ensures Kind("\t" + ValueLine(name, Escape(v))) == VariableLine
  {
    hide Escape, Quotes;
    var e := Escape(v);
    assert ValueLine(name, e) == name + (" = " + Quotes(e) + e + Quotes(e) + "\n");
    TabIsTrimmed(name, " = " + Quotes(e) + e + Quotes(e) + "\n");
    assert IsNameChar(name[0]);
  }

  // ----- the program: writing

  // escape_value
  method EscapeValue(v: string) returns (e: string)
    ensures e == Escape(v)
  {
    hide EscapeChar;
    e := "";
    assert v[0..] == v && "" + Escape(v) == Escape(v);
    for i := 0 to |v|
      invariant e + Escape(v[i..]) == Escape(v)
    {
      EscapeStep(e, v, i);
      if EscapeLetter(v[i]).Some? {
        e := e + ['\\'];
        e := e + [EscapeLetter(v[i]).value];
      } else {
        e := e + [v[i]];
      }
    }
    assert e + "" == e;
  }

  lemma EscapeStep(e: string, v: string, i: nat)
    requires i < |v|
    ensures e + Escape(v[i..]) == e + EscapeChar(v[i]) + Escape(v[i + 1..])
    ensures e + EscapeChar(v[i]) ==
      if EscapeLetter(v[i]).Some? then e + ['\\'] + [EscapeLetter(v[i]).value] else e + [v[i]]
  {
    assert v[i..][1..] == v[i + 1..];
    assert e + (EscapeChar(v[i]) + Escape(v[i + 1..])) == e + EscapeChar(v[i]) + Escape(v[i + 1..]);
  }

  // quotes_for_value
  method QuotesForValue(value: string) returns (q: string)
    ensures q == Quotes(value)
  {
    if value == "" || value[0] == ' ' {
      return "\"";
    }
    for i := 0 to |value|
      invariant forall j :: 0 <= j < i ==> value[j] != ';' && value[j] != '#'
    {
      if value[i] == ';' || value[i] == '#' {
        return "\"";
      }
    }
    if value[|value| - 1] == ' ' {
      return "\"";
    }
    q := "";
  }

  // The part of write_data that write_value uses. value is None when it has been written.
  class WriteData {
    var buf: string
    const name: string
    const preg: bool
    var value: Option<string>

    constructor (name: string, preg: bool, value: Option<string>)
      ensures this.name == name && this.preg == preg && this.value == value && buf == ""
    {
      this.name, this.preg, this.value, buf := name, preg, value, "";
    }

    // write_value. A value for a single name is only written once.
    method WriteValue()
      requires value.Some?
      modifies this
      ensures buf == old(buf) + "\t" + ValueLine(name, old(value).value)
      ensures value == if preg then old(value) else None
    {
      var q := QuotesForValue(value.value);
      buf := buf + "\t" + (name + " = " + q + value.value + q + "\n");
      if !preg {
        value := None;
      }
    }
  }

  // ----- the program: reading

  // strip_comments: the length that is left of the line, and the number of quotes.
  method CutComments(line: string, inQuotes: nat) returns (length: nat, quotes: nat)
    ensures length <= |line| && (line[..length], quotes) == StripComments(line, inQuotes)
  {
    hide TrimEnd;
    quotes, length := inQuotes, 0;
    var backslashes := 0;
    while length < |line|
      invariant length <= |line| && Scan(line, 0, inQuotes, 0) == Scan(line, length, quotes, backslashes)
    {
      if line[length] == '\"' && length > 0 && line[length - 1] != '\\' {
        quotes := quotes + 1;
      }
      if (line[length] == ';' || line[length] == '#') && quotes % 2 == 0 && backslashes % 2 == 0 {
        break;
      }
      if line[length] == '\\' {
        backslashes := backslashes + 1;
      } else {
        backslashes := 0;
      }
      length := length + 1;
    }
    ghost var cut := length;
    assert Scan(line, 0, inQuotes, 0) == (cut, quotes);
    while length > 0 && IsSpace(line[length - 1])
      invariant length <= cut && TrimEnd(line[..length]) == TrimEnd(line[..cut])
    {
      TrimStep(line, length);
      length := length - 1;
    }
    TrimStop(line, length);
  }

  lemma TrimStep(line: string, n: nat)
    requires 0 < n <= |line| && IsSpace(line[n - 1])
    ensures TrimEnd(line[..n]) == TrimEnd(line[..n - 1])
  {
    assert line[..n][..n - 1] == line[..n - 1];
  }

  lemma TrimStop(line: string, n: nat)
    requires n <= |line| && (n == 0 || !IsSpace(line[n - 1]))
    ensures TrimEnd(line[..n]) == line[..n]
  {}

  // Skips white space from i on.
  method SkipSpace(s: string, from: nat) returns (i: nat)
    requires from <= |s|
    ensures from <= i <= |s| && s[i..] == TrimStart(s[from..])
  {
    i := from;
    while i < |s| && IsSpace(s[i])
      invariant from <= i <= |s| && TrimStart(s[from..]) == TrimStart(s[i..])
    {
      assert s[i..][1..] == s[i + 1..];
      i := i + 1;
    }
  }

  // parse_name
  method NameAndValue(line: string) returns (r: Named)
    ensures r == ParseName(line)
  {
    hide TrimStart;
    var end := 0;
    assert line[0..] == line;
    while end < |line| && IsNameChar(line[end])
      invariant 0 <= end <= |line| && NameLength(line) == end + NameLength(line[end..])
    {
      assert line[end..][1..] == line[end + 1..];
      end := end + 1;
    }
    if end == 0 {
      return BadName;
    }
    var i := SkipSpace(line, end);
    if i < |line| && line[i] == '=' {
      assert line[i..][1..] == line[i + 1..];
      return Named(line[..end], Some(line[i + 1..]));
    }
    if i < |line| {
      return BadName;
    }
    r := Named(line[..end], None);
  }

  function Behind(out: string, t: Text): Text {
    match t
    case Text(value, multi) => Text(out + value, multi)
    case BadEscape => BadEscape
  }

  // unescape_line
  method UnescapeLine(s: string) returns (r: Text)
    ensures r == Unescape(s)
  {
    hide UnescapeLetter;
    var out, i := "", 0;
    assert s[0..] == s;
    BehindNothing(Unescape(s));
    while i < |s|
      invariant 0 <= i <= |s| && Unescape(s) == Behind(out, Unescape(s[i..]))
      decreases |s| - i
    {
      assert s[i..][1..] == s[i + 1..];
      if s[i] == '\"' {
      } else if s[i] != '\\' {
        BehindOne(out, s[i], Unescape(s[i + 1..]));
        out := out + [s[i]];
      } else {
        if i + 1 == |s| {
          assert out + "" == out;
          return Text(out, true);
        }
        assert s[i..][2..] == s[i + 2..];
        var c := UnescapeLetter(s[i + 1]);
        if c.None? {
          return BadEscape;
        }
        BehindOne(out, c.value, Unescape(s[i + 2..]));
        out, i := out + [c.value], i + 1;
      }
      i := i + 1;
    }
    assert out + "" == out;
    r := Text(out, false);
  }

  lemma BehindNothing(t: Text)
    ensures Behind("", t) == t
  {
    assert t.Text? ==> "" + t.value == t.value;
  }

  lemma BehindOne(out: string, c: char, t: Text)
    ensures Behind(out, Prepend(c, t)) == Behind(out + [c], t)
  {
    assert t.Text? ==> out + ([c] + t.value) == out + [c] + t.value;
  }

  // parse_variable, for a line that stands alone
  method ReadVariable(line: string) returns (r: Variable)
    ensures r == ParseVariable(line)
  {
    hide Scan, TrimEnd, NameLength, Unescape;
    var start := 0;
    assert line[0..] == line;
    while start < |line| && line[start] != '\n' && IsSpace(line[start])
      invariant 0 <= start <= |line| && TrimStartOfLine(line) == TrimStartOfLine(line[start..])
    {
      assert line[start..][1..] == line[start + 1..];
      start := start + 1;
    }
    var text := line[start..];
    var length, _ := CutComments(text, 0);
    var named := NameAndValue(text[..length]);
    if named.BadName? {
      return Malformed;
    }
    if named.value.None? {
      return Variable(named.name, None);
    }
    var i := SkipSpace(named.value.value, 0);
    assert named.value.value[0..] == named.value.value;
    var t := UnescapeLine(named.value.value[i..]);
    if t.BadEscape? {
      return Malformed;
    }
    r := if t.multi then Continued(named.name, t.value) else Variable(named.name, Some(t.value));
  }

  // A value is set and read back.
  method SetAndRead(name: string, v: string) returns (r: Variable)
    requires IsName(name)
    ensures r == Variable(name, Some(if Quoted(v) then v else Strip(v)))
  {
    hide Escape, Strip, ParseVariable, ValueLine, NeedsQuotes;
    var e := EscapeValue(v);
    var data := new WriteData(name, false, Some(e));
    data.WriteValue();
    assert "" + "\t" == "\t";
    ValueIsRead(name, v);
    QuotedByValue(v);
    r := ReadVariable(data.buf);
  }
}
